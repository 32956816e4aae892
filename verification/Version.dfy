/** The version comparator behind updates, against comparison of component lists. */
module Version {
  import opened Basics

  const U32 := 0x1_0000_0000

  predicate IsDigit(c: char) { '0' <= c <= '9' }

  function DigitCount(s: string): (k: nat)
    ensures k <= |s| && (forall i :: 0 <= i < k ==> IsDigit(s[i])) && (k < |s| ==> !IsDigit(s[k]))
  {
    if s == "" || !IsDigit(s[0]) then 0 else 1 + DigitCount(s[1..])
  }

  function DigitValue(c: char): nat
    requires IsDigit(c)
  {
    (c - '0') as int
  }

  predicate Digits(s: string) { forall i :: 0 <= i < |s| ==> IsDigit(s[i]) }

  /** A run of digits as a number, however long. */
  function Value(s: string): nat
    requires Digits(s)
  {
    if s == "" then 0 else 10 * Value(s[..|s| - 1]) + DigitValue(s[|s| - 1])
  }

  /** The leading number, as 32-bit arithmetic leaves it, and what follows it. */
  function Number(s: string): nat { Value(s[..DigitCount(s)]) % U32 }

  function AfterNumber(s: string): (r: string)
    ensures |r| <= |s|
  {
    s[DigitCount(s)..]
  }

  /** Something other than a separator ends the numeric part. */
  predicate Stops(rest: string) { rest != "" && rest[0] != '.' }

  /** Past the separator, if there is one. */
  function Next(rest: string): string { if rest == "" then rest else rest[1..] }

  /** What the comparator computes: negative, zero or positive. */
  function Compare(a: string, b: string): int
    decreases |a| + |b|
  {
    if Number(a) != Number(b) then (if Number(a) < Number(b) then -1 else 1)
    else if DigitCount(a) == 0 && DigitCount(b) == 0 then 0
    else if Stops(AfterNumber(a)) || Stops(AfterNumber(b)) then 0
    else Compare(Next(AfterNumber(a)), Next(AfterNumber(b)))
  }

  /** One run of digits, accumulated with 32-bit wrap-around. */
  method ReadNumber(s: string, start: nat) returns (n: nat, i: nat, digits: bool)
    requires start <= |s|
    ensures n == Number(s[start..]) && i == start + DigitCount(s[start..]) && digits == (i > start)
  {
    hide Value, DigitCount, DigitValue, IsDigit;
    n, i, digits := 0, start, false;
    ValueEmpty();
    assert s[start..start] == "";
    while i < |s| && IsDigit(s[i])
      invariant start <= i <= |s| && digits == (i > start)
      invariant Digits(s[start..i]) && n == Value(s[start..i]) % U32
    {
      assert s[start..i + 1] == s[start..i] + [s[i]];
      ValueGrows(s[start..i], s[i]);
      n := (n * 10 + DigitValue(s[i])) % U32;
      i := i + 1;
      digits := true;
    }
    assert s[start..i] == s[start..][..i - start];
    CountIs(s[start..], i - start);
  }

  lemma {:induction false} CountIs(s: string, k: nat)
    requires k <= |s| && Digits(s[..k]) && (k < |s| ==> !IsDigit(s[k]))
    ensures DigitCount(s) == k
  {
    if k > 0 {
      assert IsDigit(s[..k][0]) && s[1..][..k - 1] == s[..k][1..];
      CountIs(s[1..], k - 1);
    }
  }

  lemma ValueEmpty()
    ensures Digits("") && Value("") == 0
  {}

  lemma ValueGrows(run: string, c: char)
    requires Digits(run) && IsDigit(c)
    ensures Digits(run + [c]) && Value(run + [c]) % U32 == (Value(run) % U32 * 10 + DigitValue(c)) % U32
  {
    assert (run + [c])[..|run|] == run;
    WrapStep(Value(run), DigitValue(c));
  }

  lemma WrapStep(v: nat, d: nat)
    ensures (v % U32 * 10 + d) % U32 == (10 * v + d) % U32
  {
    var q := v / U32;
    assert v == U32 * q + v % U32;
    assert 10 * v + d == U32 * (10 * q) + (v % U32 * 10 + d);
  }

  /** `nev_ota_version_compare`. */
  method VersionCompare(a: string, b: string) returns (r: int)
    ensures r == Compare(a, b)
  {
    hide Number, DigitCount;
    var i: nat, j: nat := 0, 0;
    assert a[0..] == a && b[0..] == b;
    while true
      invariant i <= |a| && j <= |b| && Compare(a[i..], b[j..]) == Compare(a, b)
      decreases |a| - i + |b| - j
    {
      ghost var u, v := a[i..], b[j..];
      CountBounds(u);
      CountBounds(v);
      var na, i', digitsA := ReadNumber(a, i);
      var nb, j', digitsB := ReadNumber(b, j);
      assert AfterNumber(u) == a[i'..] && AfterNumber(v) == b[j'..];
      i, j := i', j';
      if na != nb { return if na < nb then -1 else 1; }
      if !digitsA && !digitsB { return 0; }
      if i < |a| && a[i] == '.' { i := i + 1; } else if i < |a| { return 0; }
      if j < |b| && b[j] == '.' { j := j + 1; } else if j < |b| { return 0; }
      assert Next(AfterNumber(u)) == a[i..] && Next(AfterNumber(v)) == b[j..];
      if i == |a| && j == |b| {
        CompareEmpty();
        assert a[i..] == "" && b[j..] == "";
        return 0;
      }
    }
  }

  lemma {:induction false} CountBounds(s: string)
    ensures DigitCount(s) <= |s|
  {}

  lemma CompareEmpty()
    ensures Compare("", "") == 0
  {}

  /** Exchanging the versions exchanges the verdict, whatever the strings. */
  lemma {:induction false} CompareAntisymmetric(a: string, b: string)
    ensures Compare(b, a) == -Compare(a, b)
    decreases |a| + |b|
  {
    hide Number, DigitCount;
    CountBounds(a);
    CountBounds(b);
    if Number(a) == Number(b) && (DigitCount(a) > 0 || DigitCount(b) > 0)
       && !Stops(AfterNumber(a)) && !Stops(AfterNumber(b)) {
      CompareAntisymmetric(Next(AfterNumber(a)), Next(AfterNumber(b)));
    }
  }

  // ---------------------------------------------------------------- versions as component lists

  /** Numbers separated by dots, perhaps with a suffix after the last: "", "1.10.2", "2.0-rc1". */
  predicate WellFormed(s: string)
    decreases |s|
  {
    s == "" || (DigitCount(s) > 0 && (var rest := AfterNumber(s);
                                      rest == "" || rest[0] != '.' || (rest[1..] != "" && WellFormed(rest[1..]))))
  }

  predicate Suffixed(s: string)
    decreases |s|
  {
    s != "" && (var rest := AfterNumber(s); rest != "" && (rest[0] != '.' || Suffixed(rest[1..])))
  }

  /** Plain dotted decimals. */
  predicate Dotted(s: string) { WellFormed(s) && !Suffixed(s) }

  function Components(s: string): seq<nat>
    decreases |s|
  {
    if s == "" then []
    else [Number(s)] + (var rest := AfterNumber(s); if rest == "" || rest[0] != '.' then [] else Components(rest[1..]))
  }

  /** Missing components are zero. */
  function At(x: seq<nat>, i: nat): nat { if i < |x| then x[i] else 0 }

  function Tail(x: seq<nat>): seq<nat> { if x == [] then [] else x[1..] }

  /** Lexicographic comparison of the first `n` components. */
  function Lex(x: seq<nat>, y: seq<nat>, n: nat): int {
    if n == 0 then 0
    else if At(x, 0) != At(y, 0) then (if At(x, 0) < At(y, 0) then -1 else 1)
    else Lex(Tail(x), Tail(y), n - 1)
  }

  /** How many components the comparator looks at: a suffix ends the comparison. */
  function Reach(a: string, b: string): nat {
    var x, y := |Components(a)|, |Components(b)|;
    if Suffixed(a) && Suffixed(b) then (if x < y then x else y)
    else if Suffixed(a) then x
    else if Suffixed(b) then y
    else if x < y then y else x
  }

  /**
   * On well-formed versions the comparator is the lexicographic comparison of the components, padded with
   * zeros, as far as it reaches.
   */
  lemma {:induction false} CompareIsLexicographic(a: string, b: string)
    requires WellFormed(a) && WellFormed(b)
    ensures Compare(a, b) == Lex(Components(a), Components(b), Reach(a, b))
    decreases |a| + |b|
  {
    hide Number, DigitCount, Compare, Components, WellFormed, Suffixed;
    Unfold(a);
    Unfold(b);
    CompareStep(a, b);
    if a != "" || b != "" {
      var ra, rb := AfterNumber(a), AfterNumber(b);
      if Number(a) == Number(b) && !Stops(ra) && !Stops(rb) {
        CompareIsLexicographic(Next(ra), Next(rb));
        Unfold("");
      }
    }
  }

  /** One version, one component at a time. */
  lemma Unfold(s: string)
    requires WellFormed(s)
    ensures s == "" ==> Components(s) == [] && !Suffixed(s) && Number(s) == 0 && AfterNumber(s) == "" && DigitCount(s) == 0
    ensures s != "" ==> DigitCount(s) > 0 && |AfterNumber(s)| < |s|
    ensures s != "" && !Stops(AfterNumber(s)) ==>
            && WellFormed(Next(AfterNumber(s)))
            && Components(s) == [Number(s)] + Components(Next(AfterNumber(s)))
            && Suffixed(s) == Suffixed(Next(AfterNumber(s)))
    ensures s != "" && Stops(AfterNumber(s)) ==> Components(s) == [Number(s)] && Suffixed(s)
  {}

  lemma CompareStep(a: string, b: string)
    ensures Compare(a, b) ==
            if Number(a) != Number(b) then (if Number(a) < Number(b) then -1 else 1)
            else if DigitCount(a) == 0 && DigitCount(b) == 0 then 0
            else if Stops(AfterNumber(a)) || Stops(AfterNumber(b)) then 0
            else Compare(Next(AfterNumber(a)), Next(AfterNumber(b)))
  {
    hide Number, DigitCount;
    CountBounds(a);
    CountBounds(b);
  }

  // ---------------------------------------------------------------- the order

  /** The lists first differ at `i`, and `x` is the smaller there. */
  ghost predicate LessAt(x: seq<nat>, y: seq<nat>, i: nat) {
    At(x, i) < At(y, i) && Same(x, y, i)
  }

  ghost predicate Same(x: seq<nat>, y: seq<nat>, n: nat) {
    forall i :: 0 <= i < n ==> At(x, i) == At(y, i)
  }

  lemma SameTail(x: seq<nat>, y: seq<nat>, n: nat)
    ensures Same(x, y, n + 1) <==> At(x, 0) == At(y, 0) && Same(Tail(x), Tail(y), n)
  {
    var s, t := Tail(x), Tail(y);
    assert forall i :: 0 <= i ==> At(s, i) == At(x, i + 1) && At(t, i) == At(y, i + 1);
    if At(x, 0) == At(y, 0) && Same(s, t, n) {
      forall i | 0 <= i < n + 1 ensures At(x, i) == At(y, i) {
        if i > 0 { assert At(s, i - 1) == At(t, i - 1); }
      }
    }
  }

  lemma LessAtTail(x: seq<nat>, y: seq<nat>, i: nat)
    ensures LessAt(x, y, i + 1) <==> At(x, 0) == At(y, 0) && LessAt(Tail(x), Tail(y), i)
  {
    hide Same;
    SameTail(x, y, i);
  }

  lemma {:induction false} LexSame(x: seq<nat>, y: seq<nat>, n: nat)
    ensures Lex(x, y, n) == 0 <==> Same(x, y, n)
  {
    if n > 0 {
      SameTail(x, y, n - 1);
      LexSame(Tail(x), Tail(y), n - 1);
    }
  }

  /** Lexicographic comparison, said without recursion. */
  lemma {:induction false} LexLess(x: seq<nat>, y: seq<nat>, n: nat)
    ensures Lex(x, y, n) < 0 <==> exists i :: 0 <= i < n && LessAt(x, y, i)
    decreases n
  {
    hide At, Tail;
    if n > 0 {
      LexLess(Tail(x), Tail(y), n - 1);
      if At(x, 0) < At(y, 0) {
        assert LessAt(x, y, 0);
      } else {
        if i :| 0 <= i < n && LessAt(x, y, i) {
          if i > 0 { LessAtTail(x, y, i - 1); }
        }
        if i :| 0 <= i < n - 1 && LessAt(Tail(x), Tail(y), i) {
          LessAtTail(x, y, i);
        }
      }
    }
  }

  lemma {:induction false} LexTransitive(x: seq<nat>, y: seq<nat>, z: seq<nat>, n: nat)
    ensures Lex(x, y, n) <= 0 && Lex(y, z, n) <= 0 ==>
            Lex(x, z, n) <= 0 && (Lex(x, z, n) == 0 ==> Lex(x, y, n) == 0 && Lex(y, z, n) == 0)
  {
    if n > 0 { LexTransitive(Tail(x), Tail(y), Tail(z), n - 1); }
  }

  /** Looking further than both lists changes nothing. */
  lemma {:induction false} LexBeyond(x: seq<nat>, y: seq<nat>, n: nat, m: nat)
    requires |x| <= n <= m && |y| <= n
    ensures Lex(x, y, m) == Lex(x, y, n)
  {
    if m > 0 {
      if n == 0 { LexBeyond(x, y, 0, m - 1); } else { LexBeyond(Tail(x), Tail(y), n - 1, m - 1); }
    }
  }

  /** On dotted decimals the comparator is a total preorder. */
  lemma DottedOrder(a: string, b: string, c: string)
    requires Dotted(a) && Dotted(b) && Dotted(c)
    ensures Compare(a, a) == 0
    ensures Compare(b, a) == -Compare(a, b)
    ensures Compare(a, b) <= 0 && Compare(b, c) <= 0 ==>
            Compare(a, c) <= 0 && (Compare(a, c) == 0 ==> Compare(a, b) == 0 && Compare(b, c) == 0)
  {
    hide Compare, Dotted, Components, Lex;
    var x, y, z := Components(a), Components(b), Components(c);
    var n := |x| + |y| + |z|;
    DottedIs(a, b, n);
    DottedIs(b, c, n);
    DottedIs(a, c, n);
    DottedIs(a, a, n);
    LexTransitive(x, y, z, n);
    LexSame(x, x, n);
    CompareAntisymmetric(a, b);
  }

  lemma DottedIs(a: string, b: string, n: nat)
    requires Dotted(a) && Dotted(b) && n >= |Components(a)| && n >= |Components(b)|
    ensures Compare(a, b) == Lex(Components(a), Components(b), n)
  {
    hide Compare, Components, Lex, WellFormed, Suffixed;
    CompareIsLexicographic(a, b);
    LexBeyond(Components(a), Components(b), Reach(a, b), n);
  }

  /** A dotted decimal is newer exactly when, where they first differ, its component is the larger. */
  lemma NewerIff(a: string, b: string)
    requires Dotted(a) && Dotted(b)
    ensures Compare(a, b) > 0 <==> exists i: nat :: LessAt(Components(b), Components(a), i)
  {
    hide Compare, Dotted, Components;
    var n := |Components(a)| + |Components(b)|;
    DottedIs(b, a, n);
    LexLess(Components(b), Components(a), n);
    CompareAntisymmetric(a, b);
    assert forall i: nat :: LessAt(Components(b), Components(a), i) ==> i < n;
  }

  /** With suffixes "equal" is no equivalence: both releases equal the candidate, and one is newer. */
  lemma SuffixesBreakEquality()
    ensures Compare("1.0", "1-rc") == 0 && Compare("1-rc", "1.1") == 0 && Compare("1.0", "1.1") < 0
  {
    NumberOf("1", '1', "");
    NumberOf("1.0", '1', ".0");
    NumberOf("1.1", '1', ".1");
    NumberOf("1-rc", '1', "-rc");
    NumberOf("0", '0', "");
    assert Compare("0", "1") < 0;
    assert Compare("1.0", "1.1") == Compare("0", "1");
  }

  lemma ZeroBelowOne()
    ensures Compare("0", "1") < 0
  {
    NumberOf("0", '0', "");
    NumberOf("1", '1', "");
  }

  lemma NumberOf(s: string, d: char, rest: string)
    requires IsDigit(d) && s == [d] + rest && (rest == "" || !IsDigit(rest[0]))
    ensures DigitCount(s) == 1 && Number(s) == DigitValue(d) && AfterNumber(s) == rest
  {
    assert s[..1] == [d] && [d][..0] == "";
    CountIs(s, 1);
    assert Value(s[..1]) == 10 * Value("") + DigitValue(d);
  }

  /** The numeric part of a version with a suffix. */
  function Numeric(s: string): (r: string)
    requires WellFormed(s) && Suffixed(s)
    decreases |s|
  {
    var n := DigitCount(s);
    if Stops(AfterNumber(s)) then s[..n] else s[..n] + "." + Numeric(AfterNumber(s)[1..])
  }

  lemma NumberPrefix(d: string, rest: string)
    requires Digits(d) && (rest == "" || !IsDigit(rest[0]))
    ensures DigitCount(d + rest) == |d| && Number(d + rest) == Value(d) % U32 && AfterNumber(d + rest) == rest
  {
    assert (d + rest)[..|d|] == d && (d + rest)[|d|..] == rest;
    CountIs(d + rest, |d|);
  }

  /** A first component in common is passed over. */
  lemma CompareUnder(d: string, x: string, y: string)
    requires Digits(d) && d != ""
    ensures Compare(d + ("." + x), d + ("." + y)) == Compare(x, y)
  {
    hide Value, DigitCount;
    NumberPrefix(d, "." + x);
    NumberPrefix(d, "." + y);
    CompareStep(d + ("." + x), d + ("." + y));
  }

  lemma {:induction false} SplitsAtNumber(s: string)
    ensures Digits(s[..DigitCount(s)]) && s == s[..DigitCount(s)] + AfterNumber(s)
  {}

  /** Every version with a suffix breaks the equivalence: it equals two releases, one newer than the other. */
  lemma {:induction false} EverySuffixBreaksEquality(v: string)
    requires WellFormed(v) && Suffixed(v)
    ensures Compare(Numeric(v) + ".0", v) == 0 && Compare(v, Numeric(v) + ".1") == 0
    ensures Compare(Numeric(v) + ".0", Numeric(v) + ".1") < 0
    decreases |v|
  {
    hide Value, DigitCount, Compare, WellFormed, Suffixed;
    var d, rest := v[..DigitCount(v)], AfterNumber(v);
    SplitsAtNumber(v);
    Unfold(v);
    NumericIs(v);
    if Stops(rest) {
      StoppedEquals(d, rest, "0");
      StoppedEquals(d, rest, "1");
      assert d + ".0" == d + ("." + "0") && d + ".1" == d + ("." + "1");
      CompareUnder(d, "0", "1");
      ZeroBelowOne();
    } else {
      EverySuffixBreaksEquality(Next(rest));
      StillBroken(d, Next(rest), Numeric(Next(rest)));
    }
  }

  /** A suffix ends the comparison after equal numbers. */
  lemma StoppedEquals(d: string, rest: string, x: string)
    requires Digits(d) && d != "" && Stops(rest) && !IsDigit(rest[0])
    ensures Compare(d + ("." + x), d + rest) == 0 && Compare(d + rest, d + ("." + x)) == 0
  {
    hide Value, DigitCount, Compare;
    NumberPrefix(d, "." + x);
    NumberPrefix(d, rest);
    CompareStep(d + ("." + x), d + rest);
    CompareStep(d + rest, d + ("." + x));
  }

  lemma StillBroken(d: string, w: string, n: string)
    requires Digits(d) && d != ""
    requires Compare(n + ".0", w) == 0 && Compare(w, n + ".1") == 0 && Compare(n + ".0", n + ".1") < 0
    ensures var v, m := d + ("." + w), d + "." + n;
            Compare(m + ".0", v) == 0 && Compare(v, m + ".1") == 0 && Compare(m + ".0", m + ".1") < 0
  {
    hide Compare, Digits;
    assert d + "." + n + ".0" == d + ("." + (n + ".0"));
    assert d + "." + n + ".1" == d + ("." + (n + ".1"));
    CompareUnder(d, n + ".0", w);
    CompareUnder(d, w, n + ".1");
    CompareUnder(d, n + ".0", n + ".1");
  }

  lemma NumericIs(v: string)
    requires WellFormed(v) && Suffixed(v)
    ensures var d := v[..DigitCount(v)];
            Digits(d) && d != "" && AfterNumber(v) != ""
            && if Stops(AfterNumber(v)) then v == d + AfterNumber(v) && !IsDigit(AfterNumber(v)[0]) && Numeric(v) == d
               else v == d + ("." + Next(AfterNumber(v))) && WellFormed(Next(AfterNumber(v))) && Suffixed(Next(AfterNumber(v)))
                    && Numeric(v) == d + "." + Numeric(Next(AfterNumber(v)))
  {}

  /** When well-formed versions compare equal: exactly when they agree as far as the comparator reaches. */
  lemma EqualIff(a: string, b: string)
    requires WellFormed(a) && WellFormed(b)
    ensures Compare(a, b) == 0 <==> Same(Components(a), Components(b), Reach(a, b))
  {
    hide Compare, Components, WellFormed, Reach;
    CompareIsLexicographic(a, b);
    LexSame(Components(a), Components(b), Reach(a, b));
  }

  // ---------------------------------------------------------------- numbers too large

  /** The components as they are written, however large. */
  function TrueComponents(s: string): seq<nat>
    decreases |s|
  {
    if s == "" then []
    else [Value(s[..DigitCount(s)])]
         + (var rest := AfterNumber(s); if rest == "" || rest[0] != '.' then [] else TrueComponents(rest[1..]))
  }

  predicate Small(s: string) { forall i :: 0 <= i < |TrueComponents(s)| ==> TrueComponents(s)[i] < U32 }

  lemma {:induction false} ComponentsWrap(s: string)
    ensures |Components(s)| == |TrueComponents(s)|
    ensures forall i :: 0 <= i < |Components(s)| ==> Components(s)[i] == TrueComponents(s)[i] % U32
    decreases |s|
  {
    hide Value, DigitCount;
    if s != "" && AfterNumber(s) != "" && AfterNumber(s)[0] == '.' {
      NextIsShorter(s);
      ComponentsWrap(AfterNumber(s)[1..]);
    }
  }

  lemma NextIsShorter(s: string)
    ensures AfterNumber(s) != "" ==> |AfterNumber(s)[1..]| < |s|
  {}

  /** Comparison of the versions as they are written. */
  function TrueOrder(a: string, b: string): int {
    Lex(TrueComponents(a), TrueComponents(b), |TrueComponents(a)| + |TrueComponents(b)|)
  }

  lemma SmallIsExact(a: string, b: string)
    requires Dotted(a) && Dotted(b) && Small(a) && Small(b)
    ensures Compare(a, b) == TrueOrder(a, b)
  {
    hide Dotted, Compare, Components, TrueComponents, Lex;
    ComponentsWrap(a);
    ComponentsWrap(b);
    assert Components(a) == TrueComponents(a) && Components(b) == TrueComponents(b);
    DottedIs(a, b, |Components(a)| + |Components(b)|);
  }

  /** The largest number that 32 bits hold, and `n` of it, dotted. */
  const MAX_NUMBER := "4294967295"

  function Biggest(n: nat): string
    requires n > 0
  {
    if n == 1 then MAX_NUMBER else MAX_NUMBER + ("." + Biggest(n - 1))
  }

  lemma ValueSnoc(run: string, c: char, longer: string)
    requires Digits(run) && IsDigit(c) && longer == run + [c]
    ensures Digits(longer) && Value(longer) == 10 * Value(run) + DigitValue(c)
  {
    assert (run + [c])[..|run|] == run;
  }

  lemma MaxNumberValue()
    ensures Digits(MAX_NUMBER) && Value(MAX_NUMBER) == U32 - 1
  {
    hide Value, Digits;
    ValueEmpty();
    ValueSnoc("", '4', "4");
    ValueSnoc("4", '2', "42");
    ValueSnoc("42", '9', "429");
    ValueSnoc("429", '4', "4294");
    ValueSnoc("4294", '9', "42949");
    ValueSnoc("42949", '6', "429496");
    ValueSnoc("429496", '7', "4294967");
    ValueSnoc("4294967", '2', "42949672");
    ValueSnoc("42949672", '9', "429496729");
    ValueSnoc("429496729", '5', MAX_NUMBER);
  }

  /** A dotted decimal from its first component and the rest. */
  lemma DottedFrom(d: string, w: string)
    requires Digits(d) && d != "" && Dotted(w)
    ensures w != "" ==> Dotted(d + ("." + w)) && TrueComponents(d + ("." + w)) == [Value(d)] + TrueComponents(w)
    ensures Dotted(d) && TrueComponents(d) == [Value(d)]
  {
    NumberPrefix(d, "." + w);
    NumberPrefix(d, "");
    assert d + "" == d && ("." + w)[1..] == w;
    assert (d + ("." + w))[..|d|] == d && d[..|d|] == d;
  }

  lemma {:induction false} BiggestIs(n: nat)
    requires n > 0
    ensures Dotted(Biggest(n)) && Biggest(n) != "" && |TrueComponents(Biggest(n))| == n
    ensures forall i :: 0 <= i < n ==> TrueComponents(Biggest(n))[i] == U32 - 1
  {
    hide Dotted, Digits, Value, TrueComponents;
    MaxNumberValue();
    EmptyIsDotted();
    DottedFrom(MAX_NUMBER, "");
    if n > 1 {
      BiggestIs(n - 1);
      DottedFrom(MAX_NUMBER, Biggest(n - 1));
    }
  }

  lemma EmptyIsDotted()
    ensures Dotted("") && TrueComponents("") == []
  {}

  lemma {:induction false} LexBelow(x: seq<nat>, y: seq<nat>, n: nat)
    requires forall i :: 0 <= i < n ==> At(x, i) <= At(y, i)
    ensures Lex(x, y, n) <= 0
  {
    if n > 0 {
      var s, t := Tail(x), Tail(y);
      assert forall i :: 0 <= i ==> At(s, i) == At(x, i + 1) && At(t, i) == At(y, i + 1);
      assert At(x, 0) <= At(y, 0);
      LexBelow(s, t, n - 1);
    }
  }

  /** However large a version's components are, the comparator never puts it above the largest numbers of 32 bits. */
  lemma BiggestIsNotBelow(a: string)
    requires Dotted(a) && Components(a) != []
    ensures Compare(a, Biggest(|Components(a)|)) <= 0
  {
    hide Dotted, Compare, Components, TrueComponents, Lex;
    var n := |Components(a)|;
    var b := Biggest(n);
    BiggestIs(n);
    ComponentsWrap(a);
    ComponentsWrap(b);
    DottedIs(a, b, n);
    assert forall i :: 0 <= i < n ==> Components(b)[i] == U32 - 1;
    LexBelow(Components(a), Components(b), n);
  }

  /** A dotted decimal from the component after its first, if there is one. */
  lemma TrueUnfold(a: string)
    requires Dotted(a) && a != ""
    ensures var d, w := a[..DigitCount(a)], Next(AfterNumber(a));
            && Digits(d) && d != "" && |w| < |a| && Dotted(w) && TrueComponents(a) == [Value(d)] + TrueComponents(w)
            && (w != "" ==> a == d + ("." + w))
  {
    var rest := AfterNumber(a);
    SplitsAtNumber(a);
    EmptyIsDotted();
    if rest != "" { assert rest == "." + rest[1..]; }
  }

  lemma LexStep(x: seq<nat>, y: seq<nat>, n: nat)
    requires n > 0 && At(x, 0) == At(y, 0)
    ensures Lex(x, y, n) == Lex(Tail(x), Tail(y), n - 1)
  {}

  lemma LexCons(v: nat, x: seq<nat>, y: seq<nat>)
    ensures Lex([v] + x, [v] + y, |x| + |y| + 2) == Lex(x, y, |x| + |y|)
  {
    hide Lex;
    LexStep([v] + x, [v] + y, |x| + |y| + 2);
    assert Tail([v] + x) == x && Tail([v] + y) == y;
    LexBeyond(x, y, |x| + |y|, |x| + |y| + 1);
  }

  /** A component of 2^32 or more loses to smaller ones: some version within 32 bits is not recognised as older. */
  lemma {:induction false} Rival(a: string) returns (b: string)
    requires Dotted(a) && !Small(a)
    ensures Dotted(b) && Small(b) && b != ""
    ensures Compare(a, b) <= 0 && TrueOrder(a, b) > 0
    decreases |a|
  {
    hide Dotted, Compare, Components, TrueComponents, Value, DigitCount, Lex, At;
    EmptyIsDotted();
    TrueUnfold(a);
    var d, w := a[..DigitCount(a)], Next(AfterNumber(a));
    if Value(d) < U32 {
      SmallFrom(a, Value(d), w);
      var c := Rival(w);
      b := d + ("." + c);
      DottedFrom(d, c);
      SmallFrom(b, Value(d), c);
      CompareUnder(d, w, c);
      LexCons(Value(d), TrueComponents(w), TrueComponents(c));
    } else {
      ComponentsWrap(a);
      b := Biggest(|TrueComponents(a)|);
      BiggestIs(|TrueComponents(a)|);
      BiggestIsNotBelow(a);
      LexFirst(TrueComponents(a), TrueComponents(b));
    }
  }

  lemma SmallFrom(a: string, v: nat, w: string)
    requires TrueComponents(a) == [v] + TrueComponents(w) && v < U32
    ensures Small(a) <==> Small(w)
  {
    hide TrueComponents;
    assert forall i :: 0 <= i < |TrueComponents(w)| ==> TrueComponents(a)[i + 1] == TrueComponents(w)[i];
    if Small(a) {
      forall i | 0 <= i < |TrueComponents(w)| ensures TrueComponents(w)[i] < U32 {
        assert TrueComponents(a)[i + 1] < U32;
      }
    }
  }

  lemma LexFirst(x: seq<nat>, y: seq<nat>)
    requires x != [] && y != [] && x[0] > y[0]
    ensures Lex(x, y, |x| + |y|) > 0
  {}

  /**
   * A dotted decimal is compared by the numbers it shows, against all whose numbers fit 32 bits, exactly when
   * its own do.
   */
  lemma ComparesTrulyIff(a: string)
    requires Dotted(a)
    ensures Small(a) <==> forall b :: Dotted(b) && Small(b) ==> Compare(a, b) == TrueOrder(a, b)
  {
    hide Dotted, Compare, Small, TrueOrder;
    if Small(a) {
      forall b | Dotted(b) && Small(b) ensures Compare(a, b) == TrueOrder(a, b) { SmallIsExact(a, b); }
    } else {
      var b := Rival(a);
    }
  }
}
