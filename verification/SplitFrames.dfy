/** `split_for_frames`: text cut into pieces that fit a wire field, no character cut in half. */
module SplitFrames {
  import opened Basics
  import opened Utf8

  /** `text` and `max` as the callers give them: a Rust string, and room for at least one character. */
  method SplitForFrames(text: seq<byte>, max: nat) returns (out: seq<seq<byte>>)
    requires Valid(text) && max >= 4
    ensures Concat(out) == text
    ensures forall i :: 0 <= i < |out| ==> Valid(out[i]) && |out[i]| <= max
    ensures forall i :: 0 <= i < |out| - 1 ==> |out[i]| >= max - 3
    ensures if text == [] then out == [[]] else forall i :: 0 <= i < |out| ==> out[i] != []
  {
    hide Valid, Concat;
    out := [];
    assert Concat(out) == [] by { EmptyConcat(); }
    var rest := text;
    while |rest| > max
      invariant Concat(out) + rest == text && Valid(rest)
      invariant out != [] ==> rest != []
      invariant forall i :: 0 <= i < |out| ==> Valid(out[i]) && max - 3 <= |out[i]| <= max
      decreases |rest|
    {
      var cut := FindCut(rest, max);
      ConcatSnoc(out, rest[..cut]);
      assert Concat(out) + rest == Concat(out) + rest[..cut] + rest[cut..];
      out := out + [rest[..cut]];
      rest := rest[cut..];
    }
    if rest != [] || out == [] {
      ConcatSnoc(out, rest);
      out := out + [rest];
    }
  }

  lemma EmptyConcat()
    ensures Concat<byte>([]) == []
  {}

  /** Walks back from `max` to a boundary, which is at most three steps away. */
  method FindCut(rest: seq<byte>, max: nat) returns (cut: nat)
    requires Valid(rest) && 4 <= max < |rest|
    ensures max - 3 <= cut <= max && Valid(rest[..cut]) && Valid(rest[cut..])
    ensures forall i :: cut < i <= max ==> !IsBoundary(rest, i)
  {
    hide Valid;
    BoundaryNear(rest, max);
    cut := max;
    while cut > 0 && !IsBoundary(rest, cut)
      invariant max - 3 <= cut <= max
      invariant forall i :: cut < i <= max ==> !IsBoundary(rest, i)
    {
      cut := cut - 1;
    }
    CutAtBoundary(rest, cut);
  }
}
