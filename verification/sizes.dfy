/** `_convert_to_mb` and `convert_to_gigabytes`: reading disk sizes. */
module Sizes {
  import opened Strings
  import opened Wrappers

  datatype SizeError = IndexError | ValueError

  predicate IsUnit(u: char) {
    u in "MGT"
  }

  predicate IsSign(c: char) {
    c == '+' || c == '-'
  }

  /** Python 2's `int(text)`; white space may also stand between the sign and the digits. */
  function PyInt(text: string): Option<int> {
    var t := Strip(text);
    var signed := t != "" && IsSign(t[0]);
    var digits := if signed then StripLeft(t[1..]) else t;
    if digits == "" || !AllDigits(digits) then None
    else Some(if signed && t[0] == '-' then 0 - Value(digits) else Value(digits))
  }

  function MbFactor(u: char): (f: nat)
    requires IsUnit(u)
  {
    if u == 'M' then 1 else if u == 'G' then 1024 else 1024 * 1024
  }

  /** `_convert_to_mb`: no unit at the end gives None, a bad number raises ValueError. */
  function ConvertToMb(size: string): Result<Option<int>, SizeError> {
    if size == "" then Err(IndexError)
    else
      var u := size[|size| - 1];
      if !IsUnit(u) then Ok(None)
      else
        match PyInt(size[..|size| - 1])
        case None => Err(ValueError)
        case Some(n) => Ok(Some(n * MbFactor(u)))
  }

  lemma DecimalTrimmed(n: nat)
    ensures Trimmed(Decimal(n)) && PyInt(Decimal(n)) == Some(n)
  {
    var s := Decimal(n);
    assert s[0] in s && s[|s| - 1] in s;
    assert !IsSpace(s[0]) && !IsSpace(s[|s| - 1]);
    StripTrimmed(s);
    ValueDecimal(n);
  }

  // ---------- _convert_to_mb over all strings ----------

  ghost predicate Reads(text: string, a: string, sign: string, b: string, digits: string, c: string) {
    && AllSpace(a) && AllSpace(b) && AllSpace(c) && (sign == "" || sign == "+" || sign == "-")
    && digits != "" && AllDigits(digits) && text == a + sign + b + digits + c
  }

  /** The text is a number: digits, perhaps after a sign, with white space around each part. */
  ghost predicate Denotes(text: string, n: int) {
    exists a, sign, b, digits, c :: Reads(text, a, sign, b, digits, c)
      && n == if sign == "-" then 0 - Value(digits) else Value(digits)
  }

  lemma {:induction false} StripRightSkips(s: string, w: string)
    requires AllSpace(w) && s != "" && !IsSpace(s[|s| - 1])
    ensures StripRight(s + w) == s
  {
    if w == "" {
      assert s + w == s;
    } else {
      var front := w[..|w| - 1];
      assert w[|w| - 1] in w && forall c | c in front :: c in w;
      assert (s + w)[..|s| + |w| - 1] == s + front;
      StripRightSkips(s, front);
    }
  }

  lemma StripFinds(a: string, core: string, c: string)
    requires AllSpace(a) && AllSpace(c) && core != "" && Trimmed(core)
    ensures Strip(a + core + c) == core
  {
    assert a + core + c == a + (core + c);
    StripLeftSkips(a, core + c);
    StripRightSkips(core, c);
  }

  lemma DigitsTrimmed(digits: string)
    requires digits != "" && AllDigits(digits)
    ensures Trimmed(digits) && !IsSign(digits[0])
  {
    assert digits[0] in digits && digits[|digits| - 1] in digits;
  }

  lemma AllSpaceAppend(a: string, b: string)
    requires AllSpace(a) && AllSpace(b)
    ensures AllSpace(a + b)
  {
  }

  lemma PyIntComplete(text: string, a: string, sign: string, b: string, digits: string, c: string)
    requires Reads(text, a, sign, b, digits, c)
    ensures PyInt(text) == Some(if sign == "-" then 0 - Value(digits) else Value(digits))
  {
    DigitsTrimmed(digits);
    if sign == "" {
      AllSpaceAppend(a, b);
      assert text == (a + b) + digits + c;
      StripFinds(a + b, digits, c);
    } else {
      var core := sign + (b + digits);
      assert text == a + core + c;
      assert core[0] == sign[0] && core[|core| - 1] == digits[|digits| - 1];
      StripFinds(a, core, c);
      assert core[1..] == b + digits;
      StripLeftSkips(b, digits);
    }
  }

  lemma PyIntSound(text: string)
    requires PyInt(text).Some?
    ensures Denotes(text, PyInt(text).value)
  {
    var a, c := StripKeeps(text);
    var t := Strip(text);
    if IsSign(t[0]) {
      var b := SignedParts(t);
      var sign, digits := [t[0]], StripLeft(t[1..]);
      Regroup(a, sign, b, digits, c);
      assert Reads(text, a, sign, b, digits, c);
    } else {
      Regroup(a, "", "", t, c);
      assert "" + ("" + t) == t;
      assert Reads(text, a, "", "", t, c);
    }
  }

  lemma SignedParts(t: string) returns (b: string)
    requires t != ""
    ensures AllSpace(b) && t == [t[0]] + (b + StripLeft(t[1..]))
  {
    StripLeftShape(t[1..]);
    b := t[1..][..|t| - 1 - |StripLeft(t[1..])|];
    assert t == [t[0]] + t[1..];
  }

  lemma Regroup(a: string, sign: string, b: string, digits: string, c: string)
    ensures a + (sign + (b + digits)) + c == a + sign + b + digits + c
  {
  }

  /** `int` accepts exactly these texts, with these numbers. */
  lemma PyIntExact(text: string, n: int)
    ensures PyInt(text) == Some(n) <==> Denotes(text, n)
  {
    if PyInt(text) == Some(n) {
      PyIntSound(text);
    }
    if Denotes(text, n) {
      var a, sign, b, digits, c :| Reads(text, a, sign, b, digits, c)
        && n == if sign == "-" then 0 - Value(digits) else Value(digits);
      PyIntComplete(text, a, sign, b, digits, c);
    }
  }

  /** The size is a number with a unit, and `m` that number. */
  ghost predicate SizeOf(size: string, m: int) {
    size != "" && IsUnit(size[|size| - 1]) && Denotes(size[..|size| - 1], m)
  }

  /**
   * Over all strings: a number with a unit is read as that many megabytes, a string without a unit as None, and
   * the empty string and a unit without a number are errors.
   */
  lemma ConvertToMbExact(size: string)
    ensures forall m | SizeOf(size, m) ::
      match size[|size| - 1]
      case 'M' => ConvertToMb(size) == Ok(Some(m))
      case 'G' => ConvertToMb(size) == Ok(Some(m * 1024))
      case 'T' => ConvertToMb(size) == Ok(Some(m * 1048576))
      case _ => false
    ensures ConvertToMb(size) == Err(IndexError) <==> size == ""
    ensures ConvertToMb(size) == Ok(None) <==> size != "" && !IsUnit(size[|size| - 1])
    ensures ConvertToMb(size) == Err(ValueError) <==>
            size != "" && IsUnit(size[|size| - 1]) && forall m :: !SizeOf(size, m)
  {
    if size != "" && IsUnit(size[|size| - 1]) {
      var text := size[..|size| - 1];
      forall m
        ensures SizeOf(size, m) <==> PyInt(text) == Some(m)
      {
        PyIntExact(text, m);
      }
    }
  }

  /** A printed number with a unit is read as exactly that many megabytes. */
  lemma MbExact(n: nat, u: char)
    requires IsUnit(u)
    ensures ConvertToMb(Decimal(n) + [u]) == Ok(Some(n * MbFactor(u)))
  {
    var s := Decimal(n) + [u];
    assert s[..|s| - 1] == Decimal(n);
    DecimalTrimmed(n);
  }

  /** The units agree at 1024: nG reads as (1024 n)M and nT as (1024 n)G. */
  lemma MbUnitsAgree(n: nat, small: char, big: char)
    requires (small == 'M' && big == 'G') || (small == 'G' && big == 'T')
    ensures ConvertToMb(Decimal(n) + [big]) == ConvertToMb(Decimal(1024 * n) + [small])
  {
    MbExact(n, big);
    MbExact(1024 * n, small);
    FactorsAgree(n, small, big);
  }

  lemma FactorsAgree(n: nat, small: char, big: char)
    requires (small == 'M' && big == 'G') || (small == 'G' && big == 'T')
    ensures n * MbFactor(big) == 1024 * n * MbFactor(small)
  {
    if big == 'G' {
      assert MbFactor(big) == 1024 && MbFactor(small) == 1;
    } else {
      assert MbFactor(big) == 1024 * 1024 && MbFactor(small) == 1024;
    }
  }

  // ---------- convert_to_gigabytes ----------

  function LeadingDigits(s: string): string {
    if s != "" && IsDigit(s[0]) then [s[0]] + LeadingDigits(s[1..]) else ""
  }

  /** The end of the pattern: white space, a unit, white space. */
  function MatchUnit(s: string): Option<char> {
    var rest := StripLeft(s);
    if rest != "" && IsUnit(rest[0]) && AllSpace(rest[1..]) then Some(rest[0]) else None
  }

  /** The groups of the pattern `^\s*([1-9][0-9]*)\s*([MGT])\s*$`. */
  function MatchSize(s: string): Option<(string, char)> {
    var t := StripLeft(s);
    var digits := LeadingDigits(t);
    if digits == "" || digits[0] == '0' || |digits| > |t| then None
    else
      match MatchUnit(t[|digits|..])
      case None => None
      case Some(u) => Some((digits, u))
  }

  predicate IsSizeNumber(digits: string) {
    digits != "" && AllDigits(digits) && digits[0] != '0'
  }

  ghost predicate Decomposes(s: string, a: string, digits: string, b: string, u: char, c: string) {
    AllSpace(a) && AllSpace(b) && AllSpace(c) && s == a + digits + b + [u] + c
  }

  /** What the pattern says: white space, a number without leading zero, white space, a unit, white space. */
  ghost predicate InPattern(s: string, digits: string, u: char) {
    IsSizeNumber(digits) && IsUnit(u) &&
    exists a, b, c :: Decomposes(s, a, digits, b, u, c)
  }

  lemma {:induction false} StripLeftSkips(w: string, s: string)
    requires AllSpace(w) && s != "" && !IsSpace(s[0])
    ensures StripLeft(w + s) == s
  {
    if w == "" {
      assert w + s == s;
    } else {
      assert w[0] in w && forall c | c in w[1..] :: c in w;
      assert (w + s)[1..] == w[1..] + s;
      StripLeftSkips(w[1..], s);
    }
  }

  lemma {:induction false} LeadingDigitsShape(s: string)
    ensures LeadingDigits(s) <= s && AllDigits(LeadingDigits(s))
  {
    if s != "" && IsDigit(s[0]) {
      LeadingDigitsShape(s[1..]);
    }
  }

  lemma {:induction false} LeadingDigitsStop(digits: string, s: string)
    requires AllDigits(digits) && (s == "" || !IsDigit(s[0]))
    ensures LeadingDigits(digits + s) == digits
  {
    if digits == "" {
      assert digits + s == s;
    } else {
      assert digits[0] in digits && forall c | c in digits[1..] :: c in digits;
      assert (digits + s)[1..] == digits[1..] + s;
      LeadingDigitsStop(digits[1..], s);
      assert digits == [digits[0]] + digits[1..];
    }
  }

  lemma MatchUnitSound(s: string, u: char)
    requires MatchUnit(s) == Some(u)
    ensures exists b, c | AllSpace(b) && AllSpace(c) :: s == b + [u] + c
  {
    StripLeftShape(s);
    var rest := StripLeft(s);
    var b := s[..|s| - |rest|];
    assert rest == [u] + rest[1..];
    assert s == b + [u] + rest[1..];
  }

  lemma Compose(s: string, a: string, t: string, digits: string, b: string, u: char, c: string)
    requires s == a + t && digits <= t && t[|digits|..] == b + [u] + c
    requires AllSpace(a) && AllSpace(b) && AllSpace(c)
    ensures Decomposes(s, a, digits, b, u, c)
  {
    assert t == digits + (b + [u] + c);
    assert s == a + digits + b + [u] + c;
  }

  lemma MatchSizeSound(s: string, digits: string, u: char)
    requires MatchSize(s) == Some((digits, u))
    ensures InPattern(s, digits, u)
  {
    StripLeftShape(s);
    var t := StripLeft(s);
    var a := s[..|s| - |t|];
    LeadingDigitsShape(t);
    MatchUnitSound(t[|digits|..], u);
    var b, c :| AllSpace(b) && AllSpace(c) && t[|digits|..] == b + [u] + c;
    Compose(s, a, t, digits, b, u, c);
  }

  lemma MatchSizeComplete(s: string, digits: string, u: char)
    requires InPattern(s, digits, u)
    ensures MatchSize(s) == Some((digits, u))
  {
    var a, b, c :| Decomposes(s, a, digits, b, u, c);
    var rest := [u] + c;
    var tail := b + rest;
    assert s == a + (digits + tail);
    assert digits[0] in digits && (b != "" ==> b[0] in b);
    StripLeftSkips(a, digits + tail);
    LeadingDigitsStop(digits, tail);
    assert (digits + tail)[|digits|..] == tail;
    StripLeftSkips(b, rest);
    assert rest[1..] == c;
  }

  /** The matcher accepts exactly the strings of the pattern, with the pattern's groups. */
  lemma MatchSizeExact(s: string, digits: string, u: char)
    ensures MatchSize(s) == Some((digits, u)) <==> InPattern(s, digits, u)
  {
    if MatchSize(s) == Some((digits, u)) {
      MatchSizeSound(s, digits, u);
    }
    if InPattern(s, digits, u) {
      MatchSizeComplete(s, digits, u);
    }
  }

  const GIB: nat := 1073741824

  /** The code's decimal factor of a unit is GIB / Scale(u). */
  function Scale(u: char): nat
    requires IsUnit(u)
  {
    if u == 'M' then 1_000_000_000_000 else if u == 'G' then 1_000_000_000 else 1_000_000
  }

  /** `ceil(v * factor)`. */
  function Gigabytes(v: nat, u: char): nat
    requires IsUnit(u)
  {
    (v * GIB + Scale(u) - 1) / Scale(u)
  }

  function ConvertToGigabytes(size: string): string {
    match MatchSize(size)
    case None => "5"
    case Some((digits, u)) =>
      LeadingDigitsShape(StripLeft(size));
      Decimal(Gigabytes(Value(digits), u))
  }

  function SizeBytes(v: nat, u: char): nat
    requires IsUnit(u)
  {
    if u == 'M' then v * 0x10_0000 else if u == 'G' then v * 0x4000_0000 else v * 0x100_0000_0000
  }

  /** The result is the least whole number that is not below the size times the code's factor. */
  lemma GigabytesFactor(v: nat, k: nat)
    ensures Gigabytes(v, 'M') <= k <==> v as real * 0.001073741824 <= k as real
    ensures Gigabytes(v, 'G') <= k <==> v as real * 1.073741824 <= k as real
    ensures Gigabytes(v, 'T') <= k <==> v as real * 1073.741824 <= k as real
  {
    GigabytesLeast(v, 'M', k);
    GigabytesLeast(v, 'G', k);
    GigabytesLeast(v, 'T', k);
    assert v as real * 1073741824.0 == (v * 1073741824) as real;
    assert k as real * 1_000_000_000_000.0 == (k * 1_000_000_000_000) as real;
    assert k as real * 1_000_000_000.0 == (k * 1_000_000_000) as real;
    assert k as real * 1_000_000.0 == (k * 1_000_000) as real;
  }

  /** The same over the integers. */
  lemma GigabytesLeast(v: nat, u: char, k: nat)
    requires IsUnit(u)
    ensures Gigabytes(v, u) <= k <==> v * GIB <= k * Scale(u)
  {
    var d := Scale(u);
    var q := Gigabytes(v, u);
    assert q * d <= v * GIB + d - 1 < (q + 1) * d;
    if q <= k {
      assert q * d <= k * d;
    } else {
      assert (k + 1) * d <= q * d;
    }
  }

  lemma GigabytesMonotone(v: nat, w: nat, u: char)
    requires IsUnit(u) && v <= w
    ensures Gigabytes(v, u) <= Gigabytes(w, u)
  {
    GigabytesLeast(w, u, Gigabytes(w, u));
    GigabytesLeast(v, u, Gigabytes(w, u));
  }

  /** The units agree at 1000, not at 1024. */
  lemma GigabytesUnitsAgree(v: nat)
    ensures Gigabytes(1000 * v, 'M') == Gigabytes(v, 'G')
    ensures Gigabytes(1000 * v, 'G') == Gigabytes(v, 'T')
  {
    GigabytesLeast(1000 * v, 'M', Gigabytes(v, 'G'));
    GigabytesLeast(v, 'G', Gigabytes(v, 'G'));
    GigabytesLeast(v, 'G', Gigabytes(1000 * v, 'M'));
    GigabytesLeast(1000 * v, 'M', Gigabytes(1000 * v, 'M'));
    GigabytesLeast(1000 * v, 'G', Gigabytes(v, 'T'));
    GigabytesLeast(v, 'T', Gigabytes(v, 'T'));
    GigabytesLeast(v, 'T', Gigabytes(1000 * v, 'G'));
    GigabytesLeast(1000 * v, 'G', Gigabytes(1000 * v, 'G'));
  }

  /** The virtual disk is big enough for the size in the model if and only if the unit is not T. */
  lemma EnoughSpaceUnlessTera(v: nat, u: char)
    requires IsUnit(u) && v >= 1
    ensures Gigabytes(v, u) * 1_000_000_000 >= SizeBytes(v, u) <==> u != 'T'
  {
    var q := Gigabytes(v, u);
    GigabytesLeast(v, u, q);
    if u == 'T' {
      GigabytesLeast(v, u, q - 1);
    }
  }

  /** Over all strings: the rounded-up size for the pattern's strings, "5" for every other. */
  lemma ConvertToGigabytesExact(s: string)
    ensures (exists digits, u :: InPattern(s, digits, u)) || ConvertToGigabytes(s) == "5"
    ensures forall digits, u | InPattern(s, digits, u) ::
      ConvertToGigabytes(s) == Decimal(Gigabytes(Value(digits), u))
  {
    if MatchSize(s).Some? {
      MatchSizeExact(s, MatchSize(s).value.0, MatchSize(s).value.1);
    }
    forall digits, u | InPattern(s, digits, u)
      ensures ConvertToGigabytes(s) == Decimal(Gigabytes(Value(digits), u))
    {
      MatchSizeExact(s, digits, u);
    }
  }
}
