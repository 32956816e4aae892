/** Vocabulary shared by the component models. */
module Basics {
  /** An octet, as a number; C's `uint8_t` and Rust's `u8`. */
  type byte = x: int | 0 <= x < 256

  /** Text on the wire and in Rust: its UTF-8 bytes. */
  type Text = seq<byte>

  datatype Option<+T> = None | Some(value: T)

  /** What a C string holds: the bytes before the first NUL. */
  function CString(s: seq<byte>): (c: seq<byte>)
    ensures c <= s && 0 !in c && (|c| < |s| ==> s[|c|] == 0)
  {
    if s == [] || s[0] == 0 then [] else [s[0]] + CString(s[1..])
  }

  /** Exactly the text without NUL survives as a C string. */
  lemma NulFreeSurvives(s: seq<byte>)
    ensures CString(s) == s <==> 0 !in s
  {
    if |CString(s)| < |s| { assert s[|CString(s)|] in s; }
  }

  lemma {:induction false} CStringEnds(s: seq<byte>, n: nat)
    requires n <= |s| && (forall i :: 0 <= i < n ==> s[i] != 0) && (n < |s| ==> s[n] == 0)
    ensures CString(s) == s[..n]
  {
    if n > 0 {
      CStringEnds(s[1..], n - 1);
      assert s[..n] == [s[0]] + s[1..][..n - 1];
    }
  }

  /** The pieces of a stream, put back together. */
  function Concat<T>(pieces: seq<seq<T>>): seq<T> {
    if pieces == [] then [] else pieces[0] + Concat(pieces[1..])
  }

  lemma SliceSnoc<T>(s: seq<T>, at: nat, n: nat)
    requires at <= n < |s|
    ensures s[at..n + 1] == s[at..n] + [s[n]]
  {}

  lemma ConcatSnoc<T>(pieces: seq<seq<T>>, last: seq<T>)
    ensures Concat(pieces + [last]) == Concat(pieces) + last
  {
    if pieces != [] {
      assert (pieces + [last])[1..] == pieces[1..] + [last];
      ConcatSnoc(pieces[1..], last);
    }
  }
}
