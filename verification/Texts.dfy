/** Cutting a text at the first occurrence of a character. */
module Texts {

  function Span(s: string, stop: char): (n: nat)
    ensures n <= |s| && stop !in s[..n] && (n < |s| ==> s[n] == stop)
  {
    if s == "" || s[0] == stop then 0 else
      var n := Span(s[1..], stop);
      assert s[..n + 1] == [s[0]] + s[1..][..n];
      n + 1
  }

  /** What precedes the first stop character, or everything. */
  function UpTo(s: string, stop: char): string { s[..Span(s, stop)] }

  function Tail(s: string): string { if s == "" then "" else s[1..] }

  /** What follows the first stop character, or nothing. */
  function After(s: string, stop: char): string { Tail(s[Span(s, stop)..]) }

  lemma {:induction false} SpanIs(s: string, stop: char, n: nat)
    requires n <= |s| && (forall k :: 0 <= k < n ==> s[k] != stop) && (n < |s| ==> s[n] == stop)
    ensures Span(s, stop) == n
  {
    if n > 0 { SpanIs(s[1..], stop, n - 1); }
  }

  lemma SpanAt(line: string, from: nat, i: nat, stop: char)
    requires from <= i <= |line| && (forall k :: from <= k < i ==> line[k] != stop)
    requires i < |line| ==> line[i] == stop
    ensures UpTo(line[from..], stop) == line[from..i]
    ensures line[from..][Span(line[from..], stop)..] == line[i..]
    ensures After(line[from..], stop) == if i < |line| then line[i + 1..] else ""
  {
    SpanIs(line[from..], stop, i - from);
  }

  lemma BeforeStop(f: string, stop: char, rest: string)
    requires forall i :: 0 <= i < |f| ==> f[i] != stop
    ensures Span(f + ([stop] + rest), stop) == |f|
    ensures UpTo(f + ([stop] + rest), stop) == f
    ensures After(f + ([stop] + rest), stop) == rest
  {
    SpanIs(f + ([stop] + rest), stop, |f|);
  }

  lemma SliceOfSlice(s: string, a: nat, b: nat, x: nat, y: nat)
    requires a <= b <= |s| && x <= y <= b - a
    ensures s[a..b][x..y] == s[a + x..a + y]
  {
    var t := s[a..b];
    assert forall k :: 0 <= k < y - x ==> t[x..y][k] == t[x + k] == s[a + x + k] == s[a + x..a + y][k];
  }
}
