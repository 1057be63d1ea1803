/**
 * The few JavaScript string operations the client relies on, over `seq<char>`:
 * `includes`, `split` with a non-empty separator and an ASCII `toLowerCase`. Both
 * `includes` and `split` are defined with `Find`, a left-to-right search for a substring.
 */
module Strings {
  import opened Options

  /** `sub` occurs in `s` starting at index `i`. */
  predicate Occurs(s: string, sub: string, i: int) {
    0 <= i && i + |sub| <= |s| && s[i..i + |sub|] == sub
  }

  /** The first index at or after `from` where `sub` occurs in `s`. */
  function Find(s: string, sub: string, from: nat): (r: Option<nat>)
    ensures r.Some? ==> from <= r.value && Occurs(s, sub, r.value)
    ensures forall j :: from <= j && (r.None? || j < r.value) ==> !Occurs(s, sub, j)
    decreases |s| - from
  {
    if from + |sub| > |s| then None
    else if s[from..from + |sub|] == sub then Some(from)
    else Find(s, sub, from + 1)
  }

  /** `s.includes(sub)`. */
  function Contains(s: string, sub: string): (r: bool)
    ensures r <==> exists j :: Occurs(s, sub, j)
  {
    Find(s, sub, 0).Some?
  }

  /** `s.split(sep)` for a non-empty separator: the pieces between successive non-overlapping occurrences. */
  function Split(s: string, sep: string): (parts: seq<string>)
    requires sep != []
    ensures |parts| >= 1
    ensures Join(parts, sep) == s
    decreases |s|
  {
    match Find(s, sep, 0)
    case None => [s]
    case Some(i) =>
      assert s == s[..i] + sep + s[i + |sep|..] by {
        assert s[i..i + |sep|] == sep;
        assert s == s[..i] + s[i..i + |sep|] + s[i + |sep|..];
      }
      [s[..i]] + Split(s[i + |sep|..], sep)
  }

  /** `parts.join(sep)`: the pieces with the separator between each two of them. */
  function Join(parts: seq<string>, sep: string): string
    requires |parts| >= 1
  {
    if |parts| == 1 then parts[0] else parts[0] + sep + Join(parts[1..], sep)
  }

  /** `sep` occurs at `p`, at no earlier index, and at no index in the text that follows that occurrence. */
  ghost predicate SplitsOnceAt(s: string, sep: string, p: int) {
    && Occurs(s, sep, p)
    && (forall j :: 0 <= j < p ==> !Occurs(s, sep, j))
    && (forall j :: p + |sep| <= j ==> !Occurs(s, sep, j))
  }

  /** `sub` occurs at `p` and nowhere else in `s`. */
  ghost predicate OnlyOccurrence(s: string, sub: string, p: int) {
    Occurs(s, sub, p) && forall q :: Occurs(s, sub, q) ==> q == p
  }

  lemma OccursShift(s: string, sub: string, k: nat, j: int)
    requires k <= |s| && 0 <= j
    ensures Occurs(s[k..], sub, j) <==> Occurs(s, sub, k + j)
  {
    if j + |sub| <= |s| - k {
      assert s[k..][j..j + |sub|] == s[k + j..k + j + |sub|];
    }
  }

  /** When the separator splits the text once, `split` yields the text before it and the text after it. */
  lemma {:induction false} SplitOnce(s: string, sep: string, p: int)
    requires sep != [] && SplitsOnceAt(s, sep, p)
    ensures Split(s, sep) == [s[..p], s[p + |sep|..]]
  {
    var rest := s[p + |sep|..];
    assert Find(s, sep, 0) == Some(p);
    var f := Find(rest, sep, 0);
    if f.Some? {
      OccursShift(s, sep, p + |sep|, f.value);
      assert false;
    }
    assert Split(rest, sep) == [rest];
  }

  /** `split` yields exactly two pieces only when the separator splits the text once. */
  lemma {:induction false} SplitInTwo(s: string, sep: string) returns (p: int)
    requires sep != [] && |Split(s, sep)| == 2
    ensures SplitsOnceAt(s, sep, p)
  {
    p := Find(s, sep, 0).value;
    var rest := s[p + |sep|..];
    assert Split(s, sep) == [s[..p]] + Split(rest, sep);
    assert Find(rest, sep, 0).None?;
    forall j | p + |sep| <= j
      ensures !Occurs(s, sep, j)
    {
      OccursShift(s, sep, p + |sep|, j - (p + |sep|));
    }
  }

  /** ASCII `toLowerCase` of one character. */
  function LowerChar(c: char): char {
    if 'A' <= c <= 'Z' then (c as int + 32) as char else c
  }

  /** `toLowerCase`, on the ASCII letters: the result has no capital, and every other character is kept. */
  function Lower(s: string): (r: string)
    ensures |r| == |s|
    ensures forall i :: 0 <= i < |r| ==> !('A' <= r[i] <= 'Z')
    ensures forall i :: 0 <= i < |s| && !('A' <= s[i] <= 'Z') ==> r[i] == s[i]
    ensures forall i :: 0 <= i < |s| ==> r[i] == s[i] || r[i] as int == s[i] as int + 32
  {
    seq(|s|, i requires 0 <= i < |s| => LowerChar(s[i]))
  }
}
