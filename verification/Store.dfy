/** The settings store: a write-back cache over a text backend that may fail. */
module Store {
  import opened Basics

  const U32 := 0x1_0000_0000
  const STR_MAX := 72
  const WRITEBACK_DELAY := 600

  // ---------------------------------------------------------------- numbers as text

  predicate IsDigit(b: byte) { 48 <= b <= 57 }

  /** `%u` */
  function Print(n: nat): (s: Text)
    ensures s != [] && forall i :: 0 <= i < |s| ==> IsDigit(s[i])
  {
    if n < 10 then [48 + n] else Print(n / 10) + [48 + n % 10]
  }

  function DigitRun(s: Text): (k: nat)
    ensures k <= |s| && forall i :: 0 <= i < k ==> IsDigit(s[i])
  {
    if s == [] || !IsDigit(s[0]) then 0 else 1 + DigitRun(s[1..])
  }

  predicate Digits(s: Text) { forall i :: 0 <= i < |s| ==> IsDigit(s[i]) }

  function Value(s: Text): nat
    requires Digits(s)
  {
    if s == [] then 0 else 10 * Value(s[..|s| - 1]) + (s[|s| - 1] - 48)
  }

  function SkipSpace(s: Text): Text {
    if s != [] && (s[0] == 32 || 9 <= s[0] <= 13) then SkipSpace(s[1..]) else s
  }

  /** `strtoul` in base ten, for an `unsigned long` up to `max`, cut to 32 bits by the caller's cast. */
  function Parse(s: Text, max: nat): nat {
    var t := SkipSpace(s);
    var signed := t != [] && (t[0] == 43 || t[0] == 45);
    var u := if signed then t[1..] else t;
    var v := Value(u[..DigitRun(u)]);
    var r := if v > max then max else if signed && t[0] == 45 then (max + 1 - v) % (max + 1) else v;
    r % U32
  }

  lemma {:induction false} RunOfDigits(s: Text)
    requires Digits(s)
    ensures DigitRun(s) == |s|
  {
    if s != [] { RunOfDigits(s[1..]); }
  }

  lemma {:induction false} ValueOfPrint(n: nat)
    ensures Value(Print(n)) == n
  {
    if n >= 10 {
      ValueOfPrint(n / 10);
      var s := Print(n);
      assert s[..|s| - 1] == Print(n / 10);
    } else {
      assert Value([48 + n]) == 10 * Value([48 + n][..0]) + n;
    }
  }

  lemma ParsePrint(n: nat, max: nat)
    requires n < U32 && U32 <= max + 1
    ensures Parse(Print(n), max) == n
  {
    hide Print, Value, DigitRun;
    var s := Print(n);
    PrintIsDigits(n);
    RunOfDigits(s);
    ValueOfPrint(n);
    assert IsDigit(s[0]) && s[..|s|] == s;
  }

  predicate IsSpace(b: byte) { b in {9, 10, 11, 12, 13, 32} }

  /** What C calls white space, then perhaps a sign, then a number, then anything but a digit. */
  lemma ParsesText(space: Text, sign: Text, n: nat, rest: Text, max: nat)
    requires (forall i :: 0 <= i < |space| ==> IsSpace(space[i])) && sign in {[], [43], [45]}
    requires rest == [] || rest[0] !in {48, 49, 50, 51, 52, 53, 54, 55, 56, 57}
    ensures Parse(space + (sign + (Print(n) + rest)), max) ==
            (if n > max then max else if sign == [45] then (if n == 0 then 0 else max + 1 - n) else n) % U32
  {
    hide Print, Value, DigitRun, SkipSpace, IsSpace, Digits;
    var digits := Print(n) + rest;
    var t := sign + digits;
    PrintIsDigits(n);
    DigitsThen(Print(n), rest);
    ValueOfPrint(n);
    FirstIsNoSpace(sign, Print(n), rest);
    SpaceSkipped(space, t);
    assert digits[..|Print(n)|] == Print(n);
    if n <= max { Negated(n, max); }
    if sign != [] { assert t[1..] == digits; } else { assert t == digits; }
  }

  lemma FirstIsNoSpace(sign: Text, digits: Text, rest: Text)
    requires sign in {[], [43], [45]} && digits != [] && Digits(digits)
    ensures var t := sign + (digits + rest);
            t != [] && !IsSpace(t[0]) && (sign == [] ==> t[0] != 43 && t[0] != 45) && (sign != [] ==> t[0] == sign[0])
  {
    assert IsDigit(digits[0]);
    assert (sign + (digits + rest))[0] == if sign == [] then digits[0] else sign[0];
  }

  lemma Negated(v: nat, max: nat)
    requires v <= max
    ensures (max + 1 - v) % (max + 1) == if v == 0 then 0 else max + 1 - v
  {}

  lemma {:induction false} SpaceSkipped(space: Text, t: Text)
    requires (forall i :: 0 <= i < |space| ==> IsSpace(space[i])) && t != [] && !IsSpace(t[0])
    ensures SkipSpace(space + t) == t
    decreases |space|
  {
    if space == [] {
      assert space + t == t;
    } else {
      assert IsSpace(space[0]) && (space + t)[1..] == space[1..] + t;
      SpaceSkipped(space[1..], t);
    }
  }

  lemma {:induction false} DigitsThen(digits: Text, rest: Text)
    requires Digits(digits) && (rest == [] || rest[0] !in {48, 49, 50, 51, 52, 53, 54, 55, 56, 57})
    ensures DigitRun(digits + rest) == |digits|
    decreases |digits|
  {
    if digits == [] {
      assert digits + rest == rest;
    } else {
      assert (digits + rest)[1..] == digits[1..] + rest;
      DigitsThen(digits[1..], rest);
    }
  }

  lemma PrintIsDigits(n: nat)
    ensures Print(n) != [] && Digits(Print(n))
  {}

  // ---------------------------------------------------------------- settings

  datatype Desc = Desc(key: Text, isText: bool, default: Text, min: nat, max: nat)

  datatype Setting = Num(n: nat) | Str(s: Text)

  predicate TableOk(table: seq<Desc>) {
    && (forall i :: 0 <= i < |table| ==> table[i].min <= table[i].max < U32)
    && (forall i, j :: 0 <= i < j < |table| ==> table[i].key != table[j].key)
  }

  /** Bytes of text a setting can hold. */
  function Limit(d: Desc): nat { if d.max < STR_MAX then d.max else STR_MAX - 1 }

  /** Never more than the setting allows, nor than 71 bytes. */
  lemma LimitIs(d: Desc, n: nat)
    ensures n <= Limit(d) <==> n <= d.max && n < 72
  {}

  function Clipped(s: Text, n: nat): Text { if |s| <= n then s else s[..n] }

  function Clamp(d: Desc, v: nat): nat { if v < d.min then d.min else if v > d.max then d.max else v }

  /** Saturation: of the values in the range, none lies nearer to the one asked for. */
  lemma ClampIsNearest(d: Desc, v: nat, u: nat)
    requires d.min <= u <= d.max
    ensures d.min <= Clamp(d, v) <= d.max
    ensures var c := Clamp(d, v); (if c < v then v - c else c - v) <= (if u < v then v - u else u - v)
  {}

  /** What the setting becomes when this text is read back. */
  function FromText(d: Desc, s: Text, ulong: nat): Setting {
    if d.isText then Str(Clipped(s, Limit(d))) else Num(Clamp(d, Parse(s, ulong)))
  }

  /** What a start with this much in the backend gives; loading cuts at the buffer's size. */
  function Restored(d: Desc, stored: Option<Text>, ulong: nat): Setting {
    match stored
    case None => FromText(d, d.default, ulong)
    case Some(s) => FromText(d, Clipped(s, STR_MAX - 1), ulong)
  }

  function ToText(v: Setting): Text {
    match v
    case Num(n) => Print(n)
    case Str(s) => s
  }

  predicate Fits(d: Desc, v: Setting) {
    if d.isText then v.Str? && |v.s| <= Limit(d) else v.Num? && d.min <= v.n <= d.max
  }

  lemma RestoredFits(d: Desc, stored: Option<Text>, ulong: nat)
    requires d.min <= d.max
    ensures Fits(d, Restored(d, stored, ulong))
  {}

  /** What is written is read back unchanged. */
  lemma SavedIsRestored(d: Desc, v: Setting, ulong: nat)
    requires Fits(d, v) && d.max < U32 && U32 <= ulong + 1
    ensures Restored(d, Some(ToText(v)), ulong) == v
  {
    hide Parse, Print;
    match v
    case Num(n) =>
      ParsePrint(n, ulong);
      PrintIsShort(n, 10);
    case Str(s) =>
  }

  lemma {:induction false} PrintIsShort(n: nat, k: nat)
    requires k > 0 && n < Ten(k)
    ensures |Print(n)| <= k
    ensures k == 10 ==> Ten(k) == 10_000_000_000
  {
    if n >= 10 { PrintIsShort(n / 10, k - 1); }
    if k == 10 { TenToTheTen(); }
  }

  function Ten(k: nat): nat { if k == 0 then 1 else 10 * Ten(k - 1) }

  lemma TenToTheTen()
    ensures Ten(10) == 10_000_000_000
  {
    assert Ten(4) == 10 * Ten(3) && Ten(3) == 10 * Ten(2);
    assert Ten(6) == 10 * Ten(5) && Ten(5) == 10 * Ten(4);
    assert Ten(8) == 10 * Ten(7) && Ten(7) == 10 * Ten(6);
    assert Ten(10) == 10 * Ten(9) && Ten(9) == 10 * Ten(8);
  }
}
