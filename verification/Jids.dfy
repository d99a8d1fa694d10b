/** Parts of an address. Case is folded for ASCII letters. */
module Jids {

  /** The place of the first `c`, or the length. */
  function IndexOf(s: string, c: char): (i: nat)
    ensures i <= |s|
  {
    if s == "" || s[0] == c then 0 else 1 + IndexOf(s[1..], c)
  }

  /** `s.split(c)[0]`. */
  function Before(s: string, c: char): string {
    s[..IndexOf(s, c)]
  }

  function Lower(c: char): char {
    if 'A' <= c <= 'Z' then c - 'A' + 'a' else c
  }

  function LowerCase(s: string): string {
    seq(|s|, i requires 0 <= i < |s| => Lower(s[i]))
  }

  /** What follows the first slash. */
  function Resource(full: string): string {
    var slash := IndexOf(full, '/');
    if slash == |full| then "" else full[slash + 1..]
  }

  // ---------------------------------------------------------------- what these are

  /** The first `c` is at `n` exactly if none stands before it. */
  lemma {:induction false} FirstIsAt(s: string, c: char, n: nat)
    requires n <= |s|
    ensures IndexOf(s, c) == n <==> c !in s[..n] && (n < |s| ==> s[n] == c)
  {
    if s == "" {
    } else if n == 0 {
    } else {
      FirstIsAt(s[1..], c, n - 1);
      assert s[..n] == [s[0]] + s[1..][..n - 1];
    }
  }

  /** The part before the first `c` is `a` exactly for `a` itself and what goes on after it with `c`. */
  lemma BeforeIff(s: string, a: string, c: char)
    requires c !in a
    ensures Before(s, c) == a <==> s == a || a + [c] <= s
  {
    if |a| <= |s| {
      FirstIsAt(s, c, |a|);
    }
    if s == a || a + [c] <= s {
      assert s[..|a|] == a;
    }
  }

  /** An address without a slash has no resource; what follows a first slash is the resource. */
  lemma ResourceIs(bare: string, r: string)
    requires '/' !in bare
    ensures Resource(bare) == "" && Resource(bare + "/" + r) == r
    ensures Before(bare, '/') == bare == Before(bare + "/" + r, '/')
  {
    FirstIsAt(bare, '/', |bare|);
    var full := bare + "/" + r;
    assert full[..|bare|] == bare && full[|bare| + 1..] == r;
    FirstIsAt(full, '/', |bare|);
  }

  /** `low` is `s` with every capital letter moved down by 32 places. */
  predicate IsFolded(low: string, s: string) {
    && |low| == |s|
    && forall i | 0 <= i < |s| ::
         if 65 <= s[i] as int <= 90 then low[i] as int == s[i] as int + 32 else low[i] == s[i]
  }

  lemma LowerCaseFolds(s: string, low: string)
    ensures LowerCase(s) == low <==> IsFolded(low, s)
  {
    FoldsTo(s);
    if IsFolded(low, s) {
      FoldedOnce(s, low, LowerCase(s));
    }
  }

  lemma FoldsTo(s: string)
    ensures IsFolded(LowerCase(s), s)
  {
  }

  lemma FoldedOnce(s: string, low: string, other: string)
    requires IsFolded(low, s) && IsFolded(other, s)
    ensures low == other
  {
    forall i | 0 <= i < |s|
      ensures low[i] == other[i]
    {
      assert low[i] as int == other[i] as int;
    }
  }
}
