/** Rewriting a safetensors file: tensors dropped, replaced or copied, under a new header. */
module Safetensors {
  import opened Wrappers

  type Byte = b: nat | b < 256

  // ---------- the header ----------

  datatype Info = Info(dtype: string, shape: seq<nat>, begin: nat, end: nat)

  datatype Header = Header(metadata: Option<string>, tensors: map<string, Info>)

  /** The header's text form; JSON ignores spaces after it. */
  datatype Codec = Codec(encode: Header -> seq<Byte>, decode: seq<Byte> -> Option<Header>)

  function Spaces(n: nat): (s: seq<Byte>)
    ensures |s| == n
  {
    seq<Byte>(n, _ => 32)
  }

  ghost predicate Faithful(codec: Codec) {
    forall h: Header, pad: nat :: codec.decode(codec.encode(h) + Spaces(pad)) == Some(h)
  }

  // ---------- the length field ----------

  function Pow256(k: nat): (p: nat)
    ensures p > 0
  {
    if k == 0 then 1 else 256 * Pow256(k - 1)
  }

  /** n in k bytes, lowest first. */
  function Le(n: nat, k: nat): (s: seq<Byte>)
    ensures |s| == k
  {
    if k == 0 then [] else [n % 256] + Le(n / 256, k - 1)
  }

  function UnLe(s: seq<Byte>): nat {
    if s == [] then 0 else s[0] + 256 * UnLe(s[1..])
  }

  lemma {:induction false} UnLeLe(n: nat, k: nat)
    requires n < Pow256(k)
    ensures UnLe(Le(n, k)) == n
  {
    if k > 0 {
      UnLeLe(n / 256, k - 1);
      assert Le(n, k)[1..] == Le(n / 256, k - 1);
    }
  }

  // ---------- reading ----------

  function Least(a: nat, b: nat): nat { if a < b then a else b }

  /** What a read of n bytes at pos returns: less when the file ends. */
  function Slice(bytes: seq<Byte>, pos: nat, n: nat): seq<Byte> {
    bytes[Least(pos, |bytes|)..Least(pos + n, |bytes|)]
  }

  class File {
    const bytes: seq<Byte>
    var pos: nat

    constructor (bytes: seq<Byte>)
      ensures this.bytes == bytes && pos == 0
    {
      this.bytes, pos := bytes, 0;
    }

    method Seek(to: nat)
      modifies this
      ensures pos == to
    {
      pos := to;
    }

    method Read(n: nat) returns (buf: seq<Byte>)
      modifies this
      ensures buf == Slice(bytes, old(pos), n) && pos == old(pos) + |buf|
    {
      buf := Slice(bytes, pos, n);
      pos := pos + |buf|;
    }
  }

  /** The bytes of a tensor, found through the header of the file it is in. */
  function ReadTensor(codec: Codec, file: seq<Byte>, name: string): Option<seq<Byte>> {
    if |file| < 8 then None
    else
      var length := UnLe(file[..8]);
      var header := codec.decode(Slice(file, 8, length));
      if header.None? || name !in header.value.tensors then None
      else
        var info := header.value.tensors[name];
        if info.end < info.begin then None else Some(Slice(file, 8 + length + info.begin, info.end - info.begin))
  }

  // ---------- the entries of the new file ----------

  datatype Data = Copied(nbytes: nat) | Fresh(bytes: seq<Byte>)

  datatype Entry = Entry(name: string, dtype: string, shape: seq<nat>, data: Data)

  function Size(e: Entry): nat {
    if e.data.Copied? then e.data.nbytes else |e.data.bytes|
  }

  /** The bytes of the entries before entry k. */
  function Offset(entries: seq<Entry>, k: nat): nat
    requires k <= |entries|
  {
    if k == 0 then 0 else Offset(entries, k - 1) + Size(entries[k - 1])
  }

  function InfoOf(entries: seq<Entry>, k: nat): Info
    requires k < |entries|
  {
    Info(entries[k].dtype, entries[k].shape, Offset(entries, k), Offset(entries, k + 1))
  }

  /** Entry k is the last of its name. */
  predicate LastOfName(entries: seq<Entry>, k: nat)
    requires k < |entries|
  {
    forall j :: k < j < |entries| ==> entries[j].name != entries[k].name
  }

  predicate Named(entries: seq<Entry>, name: string) {
    exists k :: 0 <= k < |entries| && entries[k].name == name
  }

  /** A name leads to its last entry. */
  ghost predicate Indexes(tensors: map<string, Info>, entries: seq<Entry>) {
    && (forall name :: name in tensors <==> Named(entries, name))
    && (forall k :: 0 <= k < |entries| && LastOfName(entries, k) ==>
          entries[k].name in tensors && tensors[entries[k].name] == InfoOf(entries, k))
  }

  lemma NamedNext(entries: seq<Entry>, e: Entry, name: string)
    ensures Named(entries + [e], name) <==> Named(entries, name) || name == e.name
  {
    var more := entries + [e];
    if Named(entries, name) {
      var k :| 0 <= k < |entries| && entries[k].name == name;
      assert more[k].name == name;
    }
    assert more[|entries|] == e;
  }

  lemma InfoStays(entries: seq<Entry>, e: Entry, k: nat)
    requires k < |entries|
    ensures InfoOf(entries + [e], k) == InfoOf(entries, k)
  {
    var more := entries + [e];
    assert more[..|entries|] == entries;
    OffsetOfPrefix(more, |entries|, k);
    OffsetOfPrefix(more, |entries|, k + 1);
  }

  lemma IndexNext(tensors: map<string, Info>, entries: seq<Entry>, e: Entry)
    requires Indexes(tensors, entries)
    ensures Indexes(tensors[e.name := InfoOf(entries + [e], |entries|)], entries + [e])
  {
    var now, more := entries + [e], tensors[e.name := InfoOf(entries + [e], |entries|)];
    forall name { NamedNext(entries, e, name); }
    forall j | 0 <= j < |now| && LastOfName(now, j)
      ensures now[j].name in more && more[now[j].name] == InfoOf(now, j)
    {
      if j < |entries| {
        InfoStays(entries, e, j);
        assert now[|entries|].name != now[j].name;
        assert forall m :: j < m < |entries| ==> now[m].name != now[j].name && now[m] == entries[m];
      }
    }
  }

  lemma {:induction false} OffsetOfPrefix(entries: seq<Entry>, n: nat, k: nat)
    requires k <= n <= |entries|
    ensures Offset(entries[..n], k) == Offset(entries, k)
  {
    if k > 0 { OffsetOfPrefix(entries, n, k - 1); }
  }

  lemma InfoAtEnd(entries: seq<Entry>, k: nat)
    requires k < |entries|
    ensures entries[..k] + [entries[k]] == entries[..k + 1]
    ensures var e, at := entries[k], Offset(entries, k);
            InfoOf(entries[..k] + [e], |entries[..k]|) == Info(e.dtype, e.shape, at, at + Size(e))
  {
    var now := entries[..k + 1];
    assert entries[..k] + [entries[k]] == now;
    OffsetOfPrefix(entries, k + 1, k);
    OffsetOfPrefix(entries, k + 1, k + 1);
  }

  /** The entries laid out back to back; a repeated name keeps its last place. */
  function LayOut(entries: seq<Entry>): map<string, Info> {
    if entries == [] then map[]
    else
      var n := |entries| - 1;
      LayOut(entries[..n])[entries[n].name := InfoOf(entries, n)]
  }

  lemma {:induction false} LayOutIndexes(entries: seq<Entry>)
    ensures Indexes(LayOut(entries), entries)
  {
    if entries != [] {
      var before, e := entries[..|entries| - 1], entries[|entries| - 1];
      assert before + [e] == entries;
      LayOutIndexes(before);
      IndexNext(LayOut(before), before, e);
    }
  }

  method BuildHeader(metadata: Option<string>, entries: seq<Entry>) returns (header: Header)
    ensures header.metadata == metadata && Indexes(header.tensors, entries)
  {
    var tensors: map<string, Info> := map[];
    var cursor := 0;
    for k := 0 to |entries|
      invariant cursor == Offset(entries, k) && tensors == LayOut(entries[..k])
    {
      var e := entries[k];
      InfoAtEnd(entries, k);
      assert entries[..k + 1][..k] == entries[..k];
      tensors := tensors[e.name := Info(e.dtype, e.shape, cursor, cursor + Size(e))];
      cursor := cursor + Size(e);
    }
    assert entries[..|entries|] == entries;
    LayOutIndexes(entries);
    header := Header(metadata, tensors);
  }

  // ---------- copying ----------

  datatype Error = ShortRead(name: string) | HeaderTooLong

  /** Copies n bytes from pos, at most chunk at a time; fails if the file ends first. */
  method CopyRange(file: File, pos: nat, n: nat, chunk: nat, name: string) returns (r: Result<seq<Byte>, Error>)
    requires chunk > 0
    modifies file
    ensures r == if n == 0 || pos + n <= |file.bytes| then Success(Slice(file.bytes, pos, n)) else Failure(ShortRead(name))
  {
    file.Seek(pos);
    var remaining: nat := n;
    var copied: seq<Byte> := [];
    while remaining > 0
      invariant remaining <= n && file.pos == pos + (n - remaining)
      invariant copied == Slice(file.bytes, pos, n - remaining) && |copied| == n - remaining
    {
      var at := file.pos;
      var buf := file.Read(Least(chunk, remaining));
      if buf == [] {
        return Failure(ShortRead(name));
      }
      SliceOn(file.bytes, pos, n - remaining, |buf|);
      copied := copied + buf;
      remaining := remaining - |buf|;
    }
    SliceFull(file.bytes, pos, n);
    return Success(copied);
  }

  lemma SliceFull(bytes: seq<Byte>, pos: nat, n: nat)
    ensures |Slice(bytes, pos, n)| == n <==> n == 0 || pos + n <= |bytes|
  {}

  lemma SliceOn(bytes: seq<Byte>, pos: nat, m: nat, n: nat)
    requires |Slice(bytes, pos, m)| == m && |Slice(bytes, pos + m, n)| == n
    ensures Slice(bytes, pos, m) + Slice(bytes, pos + m, n) == Slice(bytes, pos, m + n)
  {}

  // ---------- the rewrite ----------

  /** What one tensor of the source puts into the new file: nothing if dropped, its replacements, or itself. */
  function Contribution(tensors: map<string, Info>, name: string, dropped: set<string>,
                        replaced: map<string, seq<Entry>>): seq<Entry>
    requires name in tensors && tensors[name].begin <= tensors[name].end
  {
    if name in dropped then []
    else if name in replaced then replaced[name]
    else
      var info := tensors[name];
      [Entry(name, info.dtype, info.shape, Copied(info.end - info.begin))]
  }

  /** The entries of the new file, for the source's tensors in order. */
  function Entries(tensors: map<string, Info>, names: seq<string>, dropped: set<string>,
                   replaced: map<string, seq<Entry>>): seq<Entry>
    requires forall name :: name in names ==> name in tensors && tensors[name].begin <= tensors[name].end
  {
    if names == [] then []
    else
      var n := |names| - 1;
      Entries(tensors, names[..n], dropped, replaced) + Contribution(tensors, names[n], dropped, replaced)
  }

  method ListEntries(tensors: map<string, Info>, names: seq<string>, dropped: set<string>,
                     replaced: map<string, seq<Entry>>) returns (entries: seq<Entry>)
    requires forall name :: name in names ==> name in tensors && tensors[name].begin <= tensors[name].end
    ensures entries == Entries(tensors, names, dropped, replaced)
  {
    entries := [];
    for i := 0 to |names|
      invariant entries == Entries(tensors, names[..i], dropped, replaced)
    {
      var name := names[i];
      assert names[..i + 1][..i] == names[..i];
      if name in dropped {
        continue;
      }
      if name in replaced {
        entries := entries + replaced[name];
      } else {
        var info := tensors[name];
        entries := entries + [Entry(name, info.dtype, info.shape, Copied(info.end - info.begin))];
      }
    }
    assert names[..|names|] == names;
  }

  /** The last entry of a name, if there is one. */
  function LastEntry(entries: seq<Entry>, name: string): Option<Entry> {
    if entries == [] then None
    else
      var n := |entries| - 1;
      if entries[n].name == name then Some(entries[n]) else LastEntry(entries[..n], name)
  }

  lemma {:induction false} LastEntryIs(entries: seq<Entry>, name: string) returns (k: nat)
    ensures LastEntry(entries, name).Some? <==> Named(entries, name)
    ensures Named(entries, name) ==>
              k < |entries| && LastEntry(entries, name) == Some(entries[k]) && entries[k].name == name && LastOfName(entries, k)
  {
    k := 0;
    if entries != [] {
      var n := |entries| - 1;
      if entries[n].name == name {
        k := n;
      } else {
        k := LastEntryIs(entries[..n], name);
        assert forall j :: 0 <= j < n ==> entries[j] == entries[..n][j];
      }
    }
  }

  lemma {:induction false} LastEntryConcat(a: seq<Entry>, b: seq<Entry>, name: string)
    ensures LastEntry(a + b, name) == if LastEntry(b, name).Some? then LastEntry(b, name) else LastEntry(a, name)
  {
    if b == [] {
      assert a + b == a;
    } else {
      var n := |b| - 1;
      LastEntryConcat(a, b[..n], name);
      assert (a + b)[..|a + b| - 1] == a + b[..n];
    }
  }

  /** The tensor at position i is the last to contribute entries of that name. */
  ghost predicate LastToContribute(tensors: map<string, Info>, names: seq<string>, dropped: set<string>,
                                   replaced: map<string, seq<Entry>>, i: nat, name: string)
    requires forall x :: x in names ==> x in tensors && tensors[x].begin <= tensors[x].end
  {
    && i < |names| && Named(Contribution(tensors, names[i], dropped, replaced), name)
    && forall j :: i < j < |names| ==> !Named(Contribution(tensors, names[j], dropped, replaced), name)
  }

  lemma LastOfPrefix(tensors: map<string, Info>, names: seq<string>, dropped: set<string>,
                     replaced: map<string, seq<Entry>>, i: nat, name: string)
    requires forall x :: x in names ==> x in tensors && tensors[x].begin <= tensors[x].end
    requires LastToContribute(tensors, names, dropped, replaced, i, name) && i != |names| - 1
    ensures i < |names| - 1
    ensures LastToContribute(tensors, names[..|names| - 1], dropped, replaced, i, name)
    ensures !Named(Contribution(tensors, names[|names| - 1], dropped, replaced), name)
  {
  }

  lemma LastContributes(tensors: map<string, Info>, names: seq<string>, dropped: set<string>,
                        replaced: map<string, seq<Entry>>, i: nat, name: string)
    requires forall x :: x in names ==> x in tensors && tensors[x].begin <= tensors[x].end
    requires LastToContribute(tensors, names, dropped, replaced, i, name)
    ensures i < |names| && Named(Contribution(tensors, names[i], dropped, replaced), name)
  {
  }

  /** Of a name, the new file has the last entry contributed by the last tensor that contributes any. */
  lemma {:induction false} LastContribution(tensors: map<string, Info>, names: seq<string>, dropped: set<string>,
                                            replaced: map<string, seq<Entry>>, i: nat, name: string)
    requires forall x :: x in names ==> x in tensors && tensors[x].begin <= tensors[x].end
    requires LastToContribute(tensors, names, dropped, replaced, i, name)
    ensures LastEntry(Entries(tensors, names, dropped, replaced), name) ==
            LastEntry(Contribution(tensors, names[i], dropped, replaced), name)
  {
    hide LastEntry, Contribution, Named, LastToContribute;
    LastContributes(tensors, names, dropped, replaced, i, name);
    var n := |names| - 1;
    var before, last := Entries(tensors, names[..n], dropped, replaced), Contribution(tensors, names[n], dropped, replaced);
    LastEntryConcat(before, last, name);
    var _ := LastEntryIs(last, name);
    if i != n {
      LastOfPrefix(tensors, names, dropped, replaced, i, name);
      LastContribution(tensors, names[..n], dropped, replaced, i, name);
    }
  }

  lemma {:induction false} NoContribution(tensors: map<string, Info>, names: seq<string>, dropped: set<string>,
                                          replaced: map<string, seq<Entry>>, name: string)
    requires forall x :: x in names ==> x in tensors && tensors[x].begin <= tensors[x].end
    requires forall x :: x in names ==> !Named(Contribution(tensors, x, dropped, replaced), name)
    ensures LastEntry(Entries(tensors, names, dropped, replaced), name) == None
  {
    if names != [] {
      var n := |names| - 1;
      NoContribution(tensors, names[..n], dropped, replaced, name);
      LastEntryConcat(Entries(tensors, names[..n], dropped, replaced), Contribution(tensors, names[n], dropped, replaced), name);
      var _ := LastEntryIs(Contribution(tensors, names[n], dropped, replaced), name);
    }
  }

  /** A source file opened through its header. */
  datatype Shard = Shard(bytes: seq<Byte>, header: Header, dataBase: nat)

  /** The bytes an entry stands for: those of its tensor in the source, or its own. */
  function Content(shard: Shard, e: Entry): seq<Byte>
    requires e.data.Copied? ==> e.name in shard.header.tensors
  {
    if e.data.Fresh? then e.data.bytes
    else Slice(shard.bytes, shard.dataBase + shard.header.tensors[e.name].begin, e.data.nbytes)
  }

  /** A copied entry is as long as its tensor. */
  predicate FromShard(shard: Shard, entries: seq<Entry>) {
    forall k :: 0 <= k < |entries| && entries[k].data.Copied? ==>
      && entries[k].name in shard.header.tensors
      && var info := shard.header.tensors[entries[k].name];
         info.begin <= info.end && entries[k].data.nbytes == info.end - info.begin
  }

  /** The source holds the whole of the entry. */
  predicate Held(shard: Shard, e: Entry)
    requires e.data.Copied? ==> e.name in shard.header.tensors
  {
    e.data.Copied? ==>
      e.data.nbytes == 0 || shard.dataBase + shard.header.tensors[e.name].begin + e.data.nbytes <= |shard.bytes|
  }

  predicate AllHeld(shard: Shard, entries: seq<Entry>)
    requires FromShard(shard, entries)
  {
    forall k :: 0 <= k < |entries| ==> Held(shard, entries[k])
  }

  function DataOf(shard: Shard, entries: seq<Entry>, k: nat): seq<Byte>
    requires FromShard(shard, entries) && k <= |entries|
  {
    if k == 0 then [] else DataOf(shard, entries, k - 1) + Content(shard, entries[k - 1])
  }

  lemma NoData(shard: Shard, entries: seq<Entry>)
    requires FromShard(shard, entries)
    ensures DataOf(shard, entries, 0) == []
  {}

  lemma DataNext(shard: Shard, entries: seq<Entry>, k: nat)
    requires FromShard(shard, entries) && k < |entries|
    ensures DataOf(shard, entries, k + 1) == DataOf(shard, entries, k) + Content(shard, entries[k])
  {}

  method WriteData(shard: Shard, file: File, entries: seq<Entry>, chunk: nat) returns (r: Result<seq<Byte>, Error>)
    requires chunk > 0 && FromShard(shard, entries) && file.bytes == shard.bytes
    modifies file
    ensures r.Success? <==> AllHeld(shard, entries)
    ensures r.Success? ==> r.value == DataOf(shard, entries, |entries|)
  {
    hide DataOf, Slice;
    var out: seq<Byte> := [];
    NoData(shard, entries);
    for k := 0 to |entries|
      invariant out == DataOf(shard, entries, k)
      invariant forall j :: 0 <= j < k ==> Held(shard, entries[j])
    {
      var e := entries[k];
      DataNext(shard, entries, k);
      if e.data.Copied? {
        var info := shard.header.tensors[e.name];
        var copied := CopyRange(file, shard.dataBase + info.begin, info.end - info.begin, chunk, e.name);
        if copied.Failure? {
          return Failure(copied.error);
        }
        out := out + copied.value;
      } else {
        out := out + e.data.bytes;
      }
    }
    return Success(out);
  }

  function Pad(n: nat): (pad: nat)
    ensures (n + pad) % 8 == 0
  {
    (8 - n % 8) % 8
  }

  function Padded(codec: Codec, header: Header): seq<Byte> {
    var text := codec.encode(header);
    text + Spaces(Pad(|text|))
  }

  /** The new file: header length, header padded to eight bytes, data. */
  function Assemble(codec: Codec, header: Header, data: seq<Byte>): seq<Byte> {
    Le(|Padded(codec, header)|, 8) + Padded(codec, header) + data
  }

  /** The outcome is the new file, written exactly when the header fits and the source holds every kept tensor. */
  ghost predicate IsRewrite(codec: Codec, shard: Shard, entries: seq<Entry>, header: Header, r: Result<seq<Byte>, Error>)
    requires FromShard(shard, entries)
  {
    && header.metadata == shard.header.metadata && Indexes(header.tensors, entries)
    && (r.Success? <==> HeaderFits(codec, header) && AllHeld(shard, entries))
    && (r.Success? ==> r.value == Assemble(codec, header, DataOf(shard, entries, |entries|)))
  }

  ghost predicate Rewritten(codec: Codec, shard: Shard, entries: seq<Entry>, r: Result<seq<Byte>, Error>)
    requires FromShard(shard, entries)
  {
    exists header :: IsRewrite(codec, shard, entries, header, r)
  }

  lemma RewriteIsRewritten(codec: Codec, shard: Shard, entries: seq<Entry>, header: Header, r: Result<seq<Byte>, Error>)
    requires FromShard(shard, entries) && IsRewrite(codec, shard, entries, header, r)
    ensures Rewritten(codec, shard, entries, r)
  {}

  method Rewrite(codec: Codec, shard: Shard, names: seq<string>, dropped: set<string>,
                 replaced: map<string, seq<Entry>>, chunk: nat)
    returns (r: Result<seq<Byte>, Error>, ghost header: Header)
    requires chunk > 0
    requires forall name :: name in names ==>
               name in shard.header.tensors && shard.header.tensors[name].begin <= shard.header.tensors[name].end
    requires forall name :: name in replaced ==> forall e :: e in replaced[name] ==> e.data.Fresh?
    ensures var entries := Entries(shard.header.tensors, names, dropped, replaced);
            FromShard(shard, entries) && IsRewrite(codec, shard, entries, header, r) &&
            Rewritten(codec, shard, entries, r)
  {
    var entries := ListEntries(shard.header.tensors, names, dropped, replaced);
    EntriesFromShard(shard, names, dropped, replaced);
    var newHeader := BuildHeader(shard.header.metadata, entries);
    header := newHeader;
    var text := codec.encode(newHeader);
    var padded := text + Spaces(Pad(|text|));
    if |padded| >= Pow256(8) {
      r := Failure(HeaderTooLong);
      RewriteIsRewritten(codec, shard, entries, header, r);
      return;
    }
    var file := new File(shard.bytes);
    var data := WriteData(shard, file, entries, chunk);
    if data.Failure? {
      r := Failure(data.error);
      RewriteIsRewritten(codec, shard, entries, header, r);
      return;
    }
    r := Success(Le(|padded|, 8) + padded + data.value);
    RewriteIsRewritten(codec, shard, entries, header, r);
  }

  /** The header's length fits its eight bytes. */
  predicate HeaderFits(codec: Codec, header: Header) {
    |Padded(codec, header)| < Pow256(8)
  }

  lemma {:induction false} EntriesFromShard(shard: Shard, names: seq<string>, dropped: set<string>,
                                            replaced: map<string, seq<Entry>>)
    requires forall name :: name in names ==>
               name in shard.header.tensors && shard.header.tensors[name].begin <= shard.header.tensors[name].end
    requires forall name :: name in replaced ==> forall e :: e in replaced[name] ==> e.data.Fresh?
    ensures FromShard(shard, Entries(shard.header.tensors, names, dropped, replaced))
  {
    if names != [] {
      EntriesFromShard(shard, names[..|names| - 1], dropped, replaced);
    }
  }

  // ---------- what the new file holds ----------

  lemma {:induction false} DataLength(shard: Shard, entries: seq<Entry>, k: nat)
    requires FromShard(shard, entries) && k <= |entries|
    requires forall j :: 0 <= j < k ==> Held(shard, entries[j])
    ensures |DataOf(shard, entries, k)| == Offset(entries, k)
  {
    if k > 0 {
      DataLength(shard, entries, k - 1);
      if entries[k - 1].data.Copied? {
        SliceFull(shard.bytes, shard.dataBase + shard.header.tensors[entries[k - 1].name].begin, Size(entries[k - 1]));
      }
    }
  }

  lemma {:induction false} DataSplits(shard: Shard, entries: seq<Entry>, k: nat, n: nat) returns (tail: seq<Byte>)
    requires FromShard(shard, entries) && k < n <= |entries|
    ensures DataOf(shard, entries, n) == DataOf(shard, entries, k) + Content(shard, entries[k]) + tail
  {
    if k == n - 1 {
      tail := [];
    } else {
      var rest := DataSplits(shard, entries, k, n - 1);
      var more := Content(shard, entries[n - 1]);
      tail := rest + more;
      Regroup(DataOf(shard, entries, k), Content(shard, entries[k]), rest, more);
    }
  }

  lemma Regroup(a: seq<Byte>, b: seq<Byte>, c: seq<Byte>, d: seq<Byte>)
    ensures a + b + c + d == a + b + (c + d)
  {}

  lemma MiddleSlice(a: seq<Byte>, b: seq<Byte>, c: seq<Byte>)
    ensures (a + b + c)[|a|..|a + b|] == b
  {}

  /** The data area holds entry k's bytes at its offsets. */
  lemma DataHolds(shard: Shard, entries: seq<Entry>, k: nat)
    requires FromShard(shard, entries) && AllHeld(shard, entries) && k < |entries|
    ensures Offset(entries, k) <= Offset(entries, k + 1) <= |DataOf(shard, entries, |entries|)|
    ensures DataOf(shard, entries, |entries|)[Offset(entries, k)..Offset(entries, k + 1)] == Content(shard, entries[k])
  {
    DataLength(shard, entries, k);
    DataLength(shard, entries, k + 1);
    var tail := DataSplits(shard, entries, k, |entries|);
    MiddleSlice(DataOf(shard, entries, k), Content(shard, entries[k]), tail);
  }

  /** The entries were all there to be written, under a header that indexes them and reads back. */
  ghost predicate Written(codec: Codec, shard: Shard, entries: seq<Entry>, header: Header)
    requires FromShard(shard, entries)
  {
    Faithful(codec) && Indexes(header.tensors, entries) && HeaderFits(codec, header) && AllHeld(shard, entries)
  }

  /** Reading a name back through the new header gives the bytes of its last entry: the source's bytes if it was
      kept, the new ones if it was replaced. */
  lemma ReadsBack(codec: Codec, shard: Shard, entries: seq<Entry>, header: Header, k: nat)
    requires FromShard(shard, entries) && k < |entries|
    ensures Written(codec, shard, entries, header) && LastOfName(entries, k) ==>
              ReadTensor(codec, Assemble(codec, header, DataOf(shard, entries, |entries|)), entries[k].name) ==
              Some(Content(shard, entries[k]))
  {
    if Written(codec, shard, entries, header) && LastOfName(entries, k) {
      var data := DataOf(shard, entries, |entries|);
      DataHolds(shard, entries, k);
      ReadsThrough(codec, header, data, entries[k].name);
    }
  }

  /** Reading a name of a faithfully headed file gives the data between its offsets. */
  lemma ReadsThrough(codec: Codec, header: Header, data: seq<Byte>, name: string)
    requires Faithful(codec) && HeaderFits(codec, header) && name in header.tensors
    requires header.tensors[name].begin <= header.tensors[name].end <= |data|
    ensures ReadTensor(codec, Assemble(codec, header, data), name) ==
            Some(data[header.tensors[name].begin..header.tensors[name].end])
  {
    var padded, info := Padded(codec, header), header.tensors[name];
    var file := Assemble(codec, header, data);
    FileParts(padded, data);
    assert codec.decode(padded) == Some(header);
    SliceShifts(file, 8 + |padded|, info.begin, info.end);
  }

  /** The parts of a file, found by its length field. */
  lemma FileParts(padded: seq<Byte>, data: seq<Byte>)
    requires |padded| < Pow256(8)
    ensures var file := Le(|padded|, 8) + padded + data;
            && |file| >= 8 && UnLe(file[..8]) == |padded|
            && Slice(file, 8, |padded|) == padded && file[8 + |padded|..] == data
  {
    UnLeLe(|padded|, 8);
    var file := Le(|padded|, 8) + padded + data;
    assert file[..8] == Le(|padded|, 8);
  }

  lemma SliceShifts(file: seq<Byte>, base: nat, a: nat, b: nat)
    requires base <= |file| && a <= b <= |file| - base
    ensures Slice(file, base + a, b - a) == file[base..][a..b]
  {}

  /** The shard is a file opened through its own header. */
  predicate Opened(codec: Codec, shard: Shard) {
    && |shard.bytes| >= 8 && shard.dataBase == 8 + UnLe(shard.bytes[..8])
    && codec.decode(Slice(shard.bytes, 8, UnLe(shard.bytes[..8]))) == Some(shard.header)
  }

  lemma SourceReads(codec: Codec, shard: Shard, e: Entry)
    requires Opened(codec, shard) && e.data.Copied? && e.name in shard.header.tensors
    requires var info := shard.header.tensors[e.name]; info.begin <= info.end && e.data.nbytes == info.end - info.begin
    ensures ReadTensor(codec, shard.bytes, e.name) == Some(Content(shard, e))
  {}

  /** A kept tensor reads the same in the new file as in the source. */
  lemma KeptReadsTheSame(codec: Codec, shard: Shard, entries: seq<Entry>, header: Header, k: nat)
    requires FromShard(shard, entries) && k < |entries| && entries[k].data.Copied?
    ensures Opened(codec, shard) && Written(codec, shard, entries, header) && LastOfName(entries, k) ==>
              ReadTensor(codec, Assemble(codec, header, DataOf(shard, entries, |entries|)), entries[k].name) ==
              ReadTensor(codec, shard.bytes, entries[k].name)
  {
    if Opened(codec, shard) {
      ReadsBack(codec, shard, entries, header, k);
      SourceReads(codec, shard, entries[k]);
    }
  }

  // ---------- the new file, by name ----------

  /** The names are the source's, and every replacement brings its own bytes. */
  ghost predicate Listed(shard: Shard, names: seq<string>, replaced: map<string, seq<Entry>>) {
    && (forall name :: name in names ==>
          name in shard.header.tensors && shard.header.tensors[name].begin <= shard.header.tensors[name].end)
    && (forall name :: name in replaced ==> forall e :: e in replaced[name] ==> e.data.Fresh?)
  }

  /** The rewrite of those names went through, from a file opened through its header. */
  ghost predicate WentThrough(codec: Codec, shard: Shard, names: seq<string>, dropped: set<string>,
                              replaced: map<string, seq<Entry>>, header: Header, file: seq<Byte>)
    requires Listed(shard, names, replaced)
  {
    var entries := Entries(shard.header.tensors, names, dropped, replaced);
    EntriesFromShard(shard, names, dropped, replaced);
    Faithful(codec) && Opened(codec, shard) && IsRewrite(codec, shard, entries, header, Success(file))
  }

  lemma NoneReads(codec: Codec, header: Header, data: seq<Byte>, name: string)
    requires Faithful(codec) && HeaderFits(codec, header) && name !in header.tensors
    ensures ReadTensor(codec, Assemble(codec, header, data), name) == None
  {
    var padded := Padded(codec, header);
    FileParts(padded, data);
    assert codec.decode(padded) == Some(header);
  }

  /** Reading any name of the new file gives what its last entry stands for, and nothing if it has none. */
  lemma ReadsLastEntry(codec: Codec, shard: Shard, names: seq<string>, dropped: set<string>,
                       replaced: map<string, seq<Entry>>, header: Header, file: seq<Byte>, name: string)
    requires Listed(shard, names, replaced) && WentThrough(codec, shard, names, dropped, replaced, header, file)
    ensures var last := LastEntry(Entries(shard.header.tensors, names, dropped, replaced), name);
            && (last.Some? && last.value.data.Copied? ==> name in shard.header.tensors)
            && ReadTensor(codec, file, name) ==
               if last.None? then None
               else if last.value.data.Fresh? then Some(last.value.data.bytes)
               else ReadTensor(codec, shard.bytes, name)
  {
    var entries := Entries(shard.header.tensors, names, dropped, replaced);
    var last := LastEntry(entries, name);
    EntriesFromShard(shard, names, dropped, replaced);
    var k := LastEntryIs(entries, name);
    if last.None? {
      NoneReads(codec, header, DataOf(shard, entries, |entries|), name);
    } else {
      ReadsBack(codec, shard, entries, header, k);
      if entries[k].data.Copied? { KeptReadsTheSame(codec, shard, entries, header, k); }
    }
  }

  /** Some tensor of the source is replaced by entries among which is one of that name. */
  ghost predicate Reintroduced(names: seq<string>, dropped: set<string>, replaced: map<string, seq<Entry>>, name: string) {
    exists x :: x in names && x !in dropped && x in replaced && Named(replaced[x], name)
  }

  predicate IsKept(names: seq<string>, dropped: set<string>, replaced: map<string, seq<Entry>>, name: string) {
    name in names && name !in dropped && name !in replaced
  }

  lemma OwnContribution(tensors: map<string, Info>, x: string, dropped: set<string>, replaced: map<string, seq<Entry>>, name: string)
    requires x in tensors && tensors[x].begin <= tensors[x].end
    ensures Named(Contribution(tensors, x, dropped, replaced), name) <==>
            x !in dropped && if x in replaced then Named(replaced[x], name) else x == name
    ensures x !in dropped && x !in replaced ==>
              LastEntry(Contribution(tensors, x, dropped, replaced), x) == Some(Contribution(tensors, x, dropped, replaced)[0])
  {
    if x !in dropped && x !in replaced { assert Contribution(tensors, x, dropped, replaced)[0].name == x; }
  }

  lemma {:induction false} KeptIsLast(tensors: map<string, Info>, names: seq<string>, dropped: set<string>,
                                      replaced: map<string, seq<Entry>>, name: string)
    requires forall x :: x in names ==> x in tensors && tensors[x].begin <= tensors[x].end
    requires IsKept(names, dropped, replaced, name) && !Reintroduced(names, dropped, replaced, name)
    ensures LastEntry(Entries(tensors, names, dropped, replaced), name) ==
            Some(Contribution(tensors, name, dropped, replaced)[0])
  {
    var n := |names| - 1;
    OwnContribution(tensors, names[n], dropped, replaced, name);
    LastEntryConcat(Entries(tensors, names[..n], dropped, replaced), Contribution(tensors, names[n], dropped, replaced), name);
    var _ := LastEntryIs(Contribution(tensors, names[n], dropped, replaced), name);
    if names[n] != name {
      assert names[n] in names && name in names[..n];
      KeptIsLast(tensors, names[..n], dropped, replaced, name);
    }
  }

  /** A tensor that is neither dropped nor replaced, and whose name no replacement takes, reads the same in both files. */
  lemma KeptNameReadsTheSame(codec: Codec, shard: Shard, names: seq<string>, dropped: set<string>,
                             replaced: map<string, seq<Entry>>, header: Header, file: seq<Byte>, name: string)
    requires Listed(shard, names, replaced) && WentThrough(codec, shard, names, dropped, replaced, header, file)
    requires IsKept(names, dropped, replaced, name) && !Reintroduced(names, dropped, replaced, name)
    ensures ReadTensor(codec, file, name) == ReadTensor(codec, shard.bytes, name) != None
  {
    KeptIsLast(shard.header.tensors, names, dropped, replaced, name);
    ReadsLastEntry(codec, shard, names, dropped, replaced, header, file, name);
    SourceReads(codec, shard, Contribution(shard.header.tensors, name, dropped, replaced)[0]);
  }

  /** A name that no replacement takes is gone exactly when it is not kept: dropped or replaced, say. */
  lemma OtherNamesAreGone(codec: Codec, shard: Shard, names: seq<string>, dropped: set<string>,
                          replaced: map<string, seq<Entry>>, header: Header, file: seq<Byte>, name: string)
    requires Listed(shard, names, replaced) && WentThrough(codec, shard, names, dropped, replaced, header, file)
    requires !Reintroduced(names, dropped, replaced, name)
    ensures ReadTensor(codec, file, name) == None <==> !IsKept(names, dropped, replaced, name)
  {
    if IsKept(names, dropped, replaced, name) {
      KeptNameReadsTheSame(codec, shard, names, dropped, replaced, header, file, name);
    } else {
      forall x | x in names
        ensures !Named(Contribution(shard.header.tensors, x, dropped, replaced), name)
      {
        OwnContribution(shard.header.tensors, x, dropped, replaced, name);
      }
      NoContribution(shard.header.tensors, names, dropped, replaced, name);
      ReadsLastEntry(codec, shard, names, dropped, replaced, header, file, name);
    }
  }

  /** The last entry a replacement brings under a name reads its own bytes, if no later tensor brings
      that name again. */
  lemma ReplacementReads(codec: Codec, shard: Shard, names: seq<string>, dropped: set<string>,
                         replaced: map<string, seq<Entry>>, header: Header, file: seq<Byte>, i: nat, name: string)
    requires Listed(shard, names, replaced) && WentThrough(codec, shard, names, dropped, replaced, header, file)
    requires i < |names| && names[i] !in dropped && names[i] in replaced && Named(replaced[names[i]], name)
    requires LastToContribute(shard.header.tensors, names, dropped, replaced, i, name)
    ensures var last := LastEntry(replaced[names[i]], name);
            last.Some? && last.value.data.Fresh? && ReadTensor(codec, file, name) == Some(last.value.data.bytes)
  {
    LastContribution(shard.header.tensors, names, dropped, replaced, i, name);
    ReadsLastEntry(codec, shard, names, dropped, replaced, header, file, name);
    var k := LastEntryIs(replaced[names[i]], name);
    assert replaced[names[i]][k] in replaced[names[i]];
  }

  /** Each entry's offsets begin where the last one's end, from zero on. */
  lemma OffsetsAbut(entries: seq<Entry>, k: nat)
    requires k < |entries|
    ensures InfoOf(entries, k).begin == if k == 0 then 0 else InfoOf(entries, k - 1).end
    ensures InfoOf(entries, k).end == InfoOf(entries, k).begin + Size(entries[k])
  {
    assert k > 0 ==> k - 1 + 1 == k;
  }

  lemma PaddedIsAligned(codec: Codec, header: Header)
    ensures |Padded(codec, header)| % 8 == 0
  {
    var text := codec.encode(header);
    assert |Padded(codec, header)| == |text| + Pad(|text|);
  }

  /** The offsets tile the data area: it starts on a multiple of eight, and its last entry ends with the file. */
  lemma OffsetsTile(codec: Codec, shard: Shard, entries: seq<Entry>, header: Header)
    requires FromShard(shard, entries) && AllHeld(shard, entries)
    ensures var file := Assemble(codec, header, DataOf(shard, entries, |entries|));
            var base := 8 + |Padded(codec, header)|;
            && base % 8 == 0 && |file| == base + Offset(entries, |entries|)
            && (entries != [] ==> base + InfoOf(entries, |entries| - 1).end == |file|)
  {
    hide DataOf, Padded, Le, Offset;
    PaddedIsAligned(codec, header);
    DataLength(shard, entries, |entries|);
    var padded, data := Padded(codec, header), DataOf(shard, entries, |entries|);
    assert |Le(|padded|, 8) + padded + data| == 8 + |padded| + |data|;
  }
}
