/** Lexicographic order on strings, and how prefixes sit in it. */
module PrefixOrder {
  /** Strictly before in code-point order, as Python compares strings. */
  predicate LexLess(a: string, b: string) {
    if b == [] then false
    else if a == [] then true
    else if a[0] == b[0] then LexLess(a[1..], b[1..])
    else a[0] < b[0]
  }

  lemma {:induction false} LexTotal(a: string, b: string)
    ensures LexLess(a, b) || LexLess(b, a) || a == b
    ensures LexLess(a, b) ==> !LexLess(b, a) && a != b
  {
    if a != [] && b != [] && a[0] == b[0] {
      LexTotal(a[1..], b[1..]);
      assert a == [a[0]] + a[1..] && b == [b[0]] + b[1..];
    }
  }

  lemma {:induction false} LexTransitive(a: string, b: string, c: string)
    requires LexLess(a, b) && LexLess(b, c)
    ensures LexLess(a, c)
  {
    if a != [] && a[0] == b[0] == c[0] {
      LexTransitive(a[1..], b[1..], c[1..]);
    }
  }

  lemma {:induction false} PrefixComesFirst(p: string, s: string)
    requires p <= s && p != s
    ensures LexLess(p, s)
  {
    if p != [] {
      assert p[1..] <= s[1..];
      assert p[1..] == s[1..] ==> p == s;
      PrefixComesFirst(p[1..], s[1..]);
    }
  }

  /** The strings with a given prefix are contiguous: whatever lies between a prefix and its
      extension has that prefix too. */
  lemma {:induction false} PrefixesAreContiguous(p: string, x: string, s: string)
    requires p <= s && !LexLess(x, p) && !LexLess(s, x)
    ensures p <= x
  {
    if p != [] {
      assert x != [] && s != [];
      assert p[0] == s[0] == x[0];
      assert p[1..] <= s[1..];
      PrefixesAreContiguous(p[1..], x[1..], s[1..]);
      assert x == [x[0]] + x[1..] && p == [p[0]] + p[1..];
    }
  }

  lemma PrefixesNest(p: string, q: string, s: string)
    requires p <= s && q <= s && |p| <= |q|
    ensures p <= q
  {
  }
}
