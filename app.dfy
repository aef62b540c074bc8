/**
 * Model of the pure helpers of `algorithmics/app.py`, the Dash front end: the hex colour
 * parser, the scenario-number extraction from a file name, the text rendering of a path and
 * the conversion of a loaded scenario record into coordinates and threats.
 */
module App {
  import opened Wrappers
  import opened Coordinates
  import opened Navigator

  /** The exceptions the helpers raise. */
  datatype AppError =
    | ValueError      // `int(...)` on text that is not a number in the requested base
    | AttributeError  // `.group` called on the `None` returned by a failed `re.match`
    | IndexError      // a coordinate list in the scenario record with fewer than two entries

  function Min(a: int, b: int): int {
    if a < b then a else b
  }

  // =============================================================================================
  // _hex_to_rgb

  /** `s.lstrip(c)`: removes every leading occurrence of `c`, not just the first. */
  function LStrip(s: string, c: char): (r: string)
    ensures |r| <= |s| && r == s[|s| - |r|..]
    ensures r == [] || r[0] != c
    ensures forall i :: 0 <= i < |s| - |r| ==> s[i] == c
  {
    if s != [] && s[0] == c then LStrip(s[1..], c) else s
  }

  /** `s[i:j]` with `i <= j`: Python clamps both bounds to the length of `s`. */
  function Slice(s: string, i: nat, j: nat): (r: string)
    requires i <= j
    ensures r == s[Min(i, |s|)..Min(j, |s|)]
    ensures |r| <= j - i
  {
    if j <= |s| then s[i..j] else if i <= |s| then s[i..] else []
  }

  predicate IsHexDigit(c: char) {
    '0' <= c <= '9' || 'a' <= c <= 'f' || 'A' <= c <= 'F'
  }

  predicate AllHexDigits(s: string) {
    forall i :: 0 <= i < |s| ==> IsHexDigit(s[i])
  }

  function HexDigitValue(c: char): (v: nat)
    requires IsHexDigit(c)
    ensures v < 16
  {
    if '0' <= c <= '9' then c as int - '0' as int
    else if 'a' <= c <= 'f' then c as int - 'a' as int + 10
    else c as int - 'A' as int + 10
  }

  /** `base ** n`. */
  function Pow(base: nat, n: nat): nat {
    if n == 0 then 1 else base * Pow(base, n - 1)
  }

  lemma {:induction false} Pow16Monotone(m: nat, n: nat)
    requires m <= n
    ensures Pow(16, m) <= Pow(16, n)
    decreases n
  {
    if m < n {
      Pow16Monotone(m, n - 1);
    }
  }

  /** The value of a string of hexadecimal digits, most significant digit first. */
  function HexValue(s: string): (v: nat)
    requires AllHexDigits(s)
    ensures v < Pow(16, |s|)
  {
    if s == [] then 0 else 16 * HexValue(s[..|s| - 1]) + HexDigitValue(s[|s| - 1])
  }

  /**
   * The whitespace `int()` skips before and after the number: the ASCII characters tab to
   * carriage return and space, and the non-ASCII characters `str.isspace()` accepts, which
   * `int()` first turns into spaces. The ASCII separators U+001C to U+001F are not skipped.
   */
  predicate IsSpace(c: char) {
    || '\t' <= c <= '\r' || c == ' '
    || c == '\U{85}' || c == '\U{a0}' || c == '\U{1680}' || '\U{2000}' <= c <= '\U{200a}'
    || c == '\U{2028}' || c == '\U{2029}' || c == '\U{202f}' || c == '\U{205f}' || c == '\U{3000}'
  }

  /** The text after its leading whitespace. */
  function TrimLeft(s: string): (r: string)
    ensures |r| <= |s| && r == s[|s| - |r|..]
    ensures r == [] || !IsSpace(r[0])
    ensures forall i :: 0 <= i < |s| - |r| ==> IsSpace(s[i])
  {
    if s != [] && IsSpace(s[0]) then TrimLeft(s[1..]) else s
  }

  /** The text before its trailing whitespace. */
  function TrimRight(s: string): (r: string)
    ensures |r| <= |s| && r == s[..|r|]
    ensures r == [] || !IsSpace(r[|r| - 1])
    ensures forall i :: |r| <= i < |s| ==> IsSpace(s[i])
  {
    if s != [] && IsSpace(s[|s| - 1]) then TrimRight(s[..|s| - 1]) else s
  }

  /** Whether `int()` reads a minus sign in front of the digits. */
  predicate HasMinus(s: string) {
    s != [] && s[0] == '-'
  }

  /** The text after an optional '+' or '-'. */
  function Unsigned(s: string): (r: string)
    ensures |r| <= |s|
  {
    if s != [] && (s[0] == '+' || s[0] == '-') then s[1..] else s
  }

  /** The text after an optional `0x` or `0X` prefix, which one underscore may follow. */
  function DropHexPrefix(s: string): (r: string)
    ensures |r| <= |s|
  {
    if |s| >= 2 && s[0] == '0' && (s[1] == 'x' || s[1] == 'X') then
      if |s| >= 3 && s[2] == '_' then s[3..] else s[2..]
    else s
  }

  /** Hexadecimal digits, starting with one, with single underscores between them. */
  predicate DigitGroups(s: string)
    decreases |s|
  {
    && s != [] && IsHexDigit(s[0])
    && (|s| == 1 || if s[1] == '_' then DigitGroups(s[2..]) else DigitGroups(s[1..]))
  }

  /** The digits of a DigitGroups text, without its underscores. */
  function DigitsOf(s: string): (r: string)
    requires DigitGroups(s)
    ensures 0 < |r| <= |s| && AllHexDigits(r)
    decreases |s|
  {
    [s[0]] + (if |s| == 1 then [] else if s[1] == '_' then DigitsOf(s[2..]) else DigitsOf(s[1..]))
  }

  /** Plain digits form a single group. */
  lemma {:induction false} DigitGroupsOfDigits(s: string)
    requires s != [] && AllHexDigits(s)
    ensures DigitGroups(s) && DigitsOf(s) == s
    decreases |s|
  {
    if |s| > 1 {
      DigitGroupsOfDigits(s[1..]);
    }
  }

  /**
   * `int(...)` once the surrounding whitespace is gone: an optional sign, an optional `0x`
   * prefix, then the digit groups.
   */
  function ParseTrimmed(core: string): Result<int, AppError> {
    var digits := DropHexPrefix(Unsigned(core));
    if DigitGroups(digits) then Ok(Signed(HasMinus(core), HexValue(DigitsOf(digits)))) else Err(ValueError)
  }

  function Signed(negative: bool, v: nat): int {
    if negative then -(v as int) else v
  }

  /**
   * `int(s, 16)`: the digits may be surrounded by whitespace and preceded by a sign and a `0x`
   * prefix, and single underscores may separate them; anything else raises ValueError.
   */
  function ParseHex(s: string): (r: Result<int, AppError>)
    ensures r.Err? ==> r.error == ValueError
  {
    ParseTrimmed(TrimRight(TrimLeft(s)))
  }

  /** The value has fewer hexadecimal digits than the text has characters. */
  lemma ParseHexBound(s: string)
    ensures ParseHex(s).Ok? ==> -(Pow(16, |s|) as int) < ParseHex(s).value < Pow(16, |s|)
  {
    var core := TrimRight(TrimLeft(s));
    ParseTrimmedBound(core);
    Pow16Monotone(|core|, |s|);
  }

  lemma ParseTrimmedBound(core: string)
    ensures ParseTrimmed(core).Ok? ==> -(Pow(16, |core|) as int) < ParseTrimmed(core).value < Pow(16, |core|)
  {
    var digits := DropHexPrefix(Unsigned(core));
    if DigitGroups(digits) {
      Pow16Monotone(|DigitsOf(digits)|, |core|);
    }
  }

  /** Plain hexadecimal digits of either case are read as a number. */
  lemma ParseHexOfDigits(s: string)
    requires s != [] && AllHexDigits(s)
    ensures ParseHex(s) == Ok(HexValue(s))
  {
    TrimOfDigits(s);
    ParseTrimmedOfDigits(s);
  }

  lemma TrimOfDigits(s: string)
    requires s != [] && AllHexDigits(s)
    ensures TrimRight(TrimLeft(s)) == s
  {
    assert !IsSpace(s[0]) && !IsSpace(s[|s| - 1]);
  }

  lemma ParseTrimmedOfDigits(s: string)
    requires s != [] && AllHexDigits(s)
    ensures ParseTrimmed(s) == Ok(HexValue(s))
  {
    assert Unsigned(s) == s;
    assert DropHexPrefix(s) == s by {
      assert |s| >= 2 ==> IsHexDigit(s[1]);
    }
    DigitGroupsOfDigits(s);
  }

  /** Digit groups, with single underscores between digits, are read as the value of their digits. */
  lemma ParseHexOfDigitGroups(s: string)
    requires DigitGroups(s)
    ensures ParseHex(s) == Ok(HexValue(DigitsOf(s)))
  {
    DigitGroupsEnds(s);
    UntrimmedParse(s);
    ParseTrimmedOfGroups(s);
  }

  /** After a `0x` or `0X` prefix, which one underscore may follow, digit groups read the same. */
  lemma ParseHexOfPrefixedGroups(prefix: string, s: string)
    requires prefix == "0x" || prefix == "0X" || prefix == "0x_" || prefix == "0X_"
    requires DigitGroups(s)
    ensures ParseHex(prefix + s) == Ok(HexValue(DigitsOf(s)))
  {
    PrefixedGroupsEnds(prefix, s);
    UntrimmedParse(prefix + s);
    ParseTrimmedOfPrefixedGroups(prefix, s);
  }

  lemma PrefixedGroupsEnds(prefix: string, s: string)
    requires prefix == "0x" || prefix == "0X" || prefix == "0x_" || prefix == "0X_"
    requires DigitGroups(s)
    ensures var t := prefix + s; t != [] && !IsSpace(t[0]) && !IsSpace(t[|t| - 1])
  {
    DigitGroupsEnds(s);
    var t := prefix + s;
    assert t[0] == '0' && t[|t| - 1] == s[|s| - 1];
  }

  /** Digit groups start and end with a digit. */
  lemma {:induction false} DigitGroupsEnds(s: string)
    requires DigitGroups(s)
    ensures IsHexDigit(s[0]) && IsHexDigit(s[|s| - 1])
    decreases |s|
  {
    if |s| > 1 {
      if s[1] == '_' {
        DigitGroupsEnds(s[2..]);
      } else {
        DigitGroupsEnds(s[1..]);
      }
    }
  }

  /** Text that neither starts nor ends with whitespace is read as it stands. */
  lemma UntrimmedParse(s: string)
    requires s != [] && !IsSpace(s[0]) && !IsSpace(s[|s| - 1])
    ensures ParseHex(s) == ParseTrimmed(s)
  {
    assert TrimLeft(s) == s;
    assert TrimRight(s) == s;
  }

  lemma ParseTrimmedOfGroups(s: string)
    requires DigitGroups(s)
    ensures ParseTrimmed(s) == Ok(HexValue(DigitsOf(s)))
  {
    assert Unsigned(s) == s;
    assert DropHexPrefix(s) == s by {
      if |s| >= 2 && s[1] != '_' {
        DigitGroupsEnds(s[1..]);
      }
    }
  }

  lemma ParseTrimmedOfPrefixedGroups(prefix: string, s: string)
    requires prefix == "0x" || prefix == "0X" || prefix == "0x_" || prefix == "0X_"
    requires DigitGroups(s)
    ensures ParseTrimmed(prefix + s) == Ok(HexValue(DigitsOf(s)))
  {
    var t := prefix + s;
    assert Unsigned(t) == t;
    assert DropHexPrefix(t) == s by {
      DigitGroupsEnds(s);
      assert t[|prefix|..] == s;
    }
  }

  /** Whitespace before the number is skipped. */
  lemma ParseHexSkipsLeadingSpace(c: char, s: string)
    requires IsSpace(c)
    ensures ParseHex([c] + s) == ParseHex(s)
  {
    assert TrimLeft([c] + s) == TrimLeft(s) by {
      assert ([c] + s)[1..] == s;
    }
  }

  /** Whitespace after the number is skipped. */
  lemma ParseHexSkipsTrailingSpace(s: string, c: char)
    requires IsSpace(c)
    ensures ParseHex(s + [c]) == ParseHex(s)
  {
    TrimLeftOfExtension(s, c);
    if TrimLeft(s) != [] {
      TrimRightOfExtension(TrimLeft(s), c);
    }
  }

  lemma {:induction false} TrimLeftOfExtension(s: string, c: char)
    requires IsSpace(c)
    ensures TrimLeft(s + [c]) == if TrimLeft(s) == [] then [] else TrimLeft(s) + [c]
    decreases |s|
  {
    if s == [] {
      assert TrimLeft([c]) == TrimLeft([]) by {
        assert [c][1..] == [];
      }
    } else if IsSpace(s[0]) {
      assert (s + [c])[1..] == s[1..] + [c];
      TrimLeftOfExtension(s[1..], c);
    }
  }

  lemma TrimRightOfExtension(s: string, c: char)
    requires IsSpace(c)
    ensures TrimRight(s + [c]) == TrimRight(s)
  {
    assert (s + [c])[..|s|] == s;
  }

  /** The outcome with its value negated; an error stays the same error. */
  function Negated(r: Result<int, AppError>): (n: Result<int, AppError>)
    ensures n.Ok? <==> r.Ok?
    ensures n.Ok? ==> n.value + r.value == 0
    ensures n.Err? ==> n == r
  {
    if r.Ok? then Ok(-r.value) else r
  }

  /** An ASCII separator U+001C to U+001F is not whitespace to `int()`: before a digit it is rejected. */
  lemma ParseHexRejectsSeparator(c: char, d: char)
    requires '\U{1c}' <= c <= '\U{1f}' && IsHexDigit(d)
    ensures ParseHex([c, d]) == Err(ValueError)
  {
    ParseHexShort([c, d]);
    ShortParseHexRejectsSeparator(c, d);
  }

  lemma ShortParseHexRejectsSeparator(c: char, d: char)
    requires '\U{1c}' <= c <= '\U{1f}'
    ensures ShortParseHex([c, d]) == Err(ValueError)
  {
  }

  /** A '-' in front of an unsigned number negates it. */
  lemma ParseHexNegative(s: string)
    requires s == [] || (!IsSpace(s[0]) && s[0] != '+' && s[0] != '-')
    ensures ParseHex("-" + s) == Negated(ParseHex(s))
  {
    NegativeCore(s);
    UnsignedCore(s);
    TrimRightKeepsFirst(s);
    ParseTrimmedNegative(TrimRight(s));
  }

  lemma NegativeCore(s: string)
    ensures ParseHex("-" + s) == ParseTrimmed("-" + TrimRight(s))
  {
    assert TrimLeft("-" + s) == "-" + s;
    TrimRightAfterSign(s);
  }

  lemma TrimRightKeepsFirst(s: string)
    ensures TrimRight(s) == [] || TrimRight(s)[0] == s[0]
  {
  }

  lemma UnsignedCore(s: string)
    requires s == [] || !IsSpace(s[0])
    ensures ParseHex(s) == ParseTrimmed(TrimRight(s))
  {
    assert TrimLeft(s) == s;
  }

  lemma ParseTrimmedNegative(x: string)
    requires x == [] || (x[0] != '+' && x[0] != '-')
    ensures ParseTrimmed("-" + x) == Negated(ParseTrimmed(x))
  {
    assert Unsigned("-" + x) == x == Unsigned(x);
  }

  lemma {:induction false} TrimRightAfterSign(s: string)
    ensures TrimRight("-" + s) == "-" + TrimRight(s)
    decreases |s|
  {
    if s != [] && IsSpace(s[|s| - 1]) {
      assert ("-" + s)[..|s|] == "-" + s[..|s| - 1];
      TrimRightAfterSign(s[..|s| - 1]);
    }
  }

  /**
   * `int(t, 16)` for a text of at most two characters, case by case: one digit, two digits,
   * or one digit next to whitespace or after a sign.
   */
  function ShortParseHex(t: string): (r: Result<int, AppError>)
    requires |t| <= 2
    ensures r.Ok? ==> -15 <= r.value <= 255
  {
    if |t| == 1 && IsHexDigit(t[0]) then Ok(HexDigitValue(t[0]))
    else if |t| == 2 && IsHexDigit(t[0]) && IsHexDigit(t[1]) then Ok(16 * HexDigitValue(t[0]) + HexDigitValue(t[1]))
    else if |t| == 2 && IsHexDigit(t[0]) && IsSpace(t[1]) then Ok(HexDigitValue(t[0]))
    else if |t| == 2 && (IsSpace(t[0]) || t[0] == '+') && IsHexDigit(t[1]) then Ok(HexDigitValue(t[1]))
    else if |t| == 2 && t[0] == '-' && IsHexDigit(t[1]) then Ok(-(HexDigitValue(t[1]) as int))
    else Err(ValueError)
  }

  /** On texts of at most two characters `int(t, 16)` is the case table above. */
  lemma ParseHexShort(t: string)
    requires |t| <= 2
    ensures ParseHex(t) == ShortParseHex(t)
  {
    if |t| == 0 {
      assert DropHexPrefix(Unsigned(TrimRight(TrimLeft(t)))) == [];
    } else if |t| == 1 {
      assert t == [t[0]];
      ParseHexShortOne(t[0]);
    } else {
      assert t == [t[0], t[1]];
      ParseHexShortTwo(t[0], t[1]);
    }
  }

  lemma ParseHexShortOne(a: char)
    ensures ParseHex([a]) == ShortParseHex([a])
  {
    if IsSpace(a) {
      assert TrimLeft([a]) == [] by {
        assert [a][1..] == [];
      }
      ParseTrimmedRejects([]);
    } else if IsHexDigit(a) {
      ParseHexOfDigits([a]);
      assert [a][..0] == [];
    } else {
      assert TrimRight(TrimLeft([a])) == [a];
      ParseTrimmedNoDigit([a]);
    }
  }

  lemma ParseTrimmedNoDigit(t: string)
    requires |t| == 1 && !IsHexDigit(t[0])
    ensures ParseTrimmed(t) == Err(ValueError)
  {
    if t[0] == '+' || t[0] == '-' {
      assert Unsigned(t) == [];
    } else {
      assert Unsigned(t) == t;
      assert DropHexPrefix(t) == t;
    }
    ParseTrimmedRejects(t);
  }

  lemma ParseHexShortTwo(a: char, b: char)
    ensures ParseHex([a, b]) == ShortParseHex([a, b])
  {
    if IsSpace(a) {
      ParseHexLeadingSpaceOfPair(a, b);
    } else if IsSpace(b) {
      ParseHexTrailingSpaceOfPair(a, b);
    } else {
      ParseHexUntrimmedPair(a, b);
    }
  }

  lemma ParseHexLeadingSpaceOfPair(a: char, b: char)
    requires IsSpace(a)
    ensures ParseHex([a, b]) == ShortParseHex([a, b])
  {
    ParseHexDropsFirst(a, b);
    ShortParseHexDropsFirst(a, b);
    ParseHexShortOne(b);
  }

  lemma ParseHexDropsFirst(a: char, b: char)
    requires IsSpace(a)
    ensures ParseHex([a, b]) == ParseHex([b])
  {
    assert [a] + [b] == [a, b];
    ParseHexSkipsLeadingSpace(a, [b]);
  }

  lemma ShortParseHexDropsFirst(a: char, b: char)
    requires IsSpace(a)
    ensures ShortParseHex([a, b]) == ShortParseHex([b])
  {
  }

  lemma ParseHexTrailingSpaceOfPair(a: char, b: char)
    requires !IsSpace(a) && IsSpace(b)
    ensures ParseHex([a, b]) == ShortParseHex([a, b])
  {
    ParseHexDropsLast(a, b);
    ShortParseHexDropsLast(a, b);
    ParseHexShortOne(a);
  }

  lemma ParseHexDropsLast(a: char, b: char)
    requires IsSpace(b)
    ensures ParseHex([a, b]) == ParseHex([a])
  {
    assert [a] + [b] == [a, b];
    ParseHexSkipsTrailingSpace([a], b);
  }

  lemma ShortParseHexDropsLast(a: char, b: char)
    requires !IsSpace(a) && IsSpace(b)
    ensures ShortParseHex([a, b]) == ShortParseHex([a])
  {
  }

  lemma ParseHexUntrimmedPair(a: char, b: char)
    requires !IsSpace(a) && !IsSpace(b)
    ensures ParseHex([a, b]) == ShortParseHex([a, b])
  {
    TrimPair(a, b);
    ParseTrimmedPair(a, b);
  }

  lemma TrimPair(a: char, b: char)
    requires !IsSpace(a) && !IsSpace(b)
    ensures ParseHex([a, b]) == ParseTrimmed([a, b])
  {
    assert TrimRight(TrimLeft([a, b])) == [a, b] by {
      assert TrimLeft([a, b]) == [a, b];
    }
  }

  lemma ParseTrimmedPair(a: char, b: char)
    requires !IsSpace(a) && !IsSpace(b)
    ensures ParseTrimmed([a, b]) == ShortParseHex([a, b])
  {
    if a == '+' || a == '-' {
      ParseHexSignDigit(a, b);
    } else if IsHexDigit(a) && IsHexDigit(b) {
      ParseTrimmedDigitPair(a, b);
      ShortParseHexPair(a, b);
    } else {
      ParseTrimmedNoDigits([a, b]);
      ShortParseHexNoDigits(a, b);
    }
  }

  lemma ParseTrimmedDigitPair(a: char, b: char)
    requires IsHexDigit(a) && IsHexDigit(b)
    ensures ParseTrimmed([a, b]) == Ok(PairValue(a, b))
  {
    ParseTrimmedOfDigits([a, b]);
    assert [a, b][..1] == [a];
    assert [a][..0] == [];
  }

  lemma ShortParseHexNoDigits(a: char, b: char)
    requires !IsSpace(a) && !IsSpace(b) && a != '+' && a != '-' && !(IsHexDigit(a) && IsHexDigit(b))
    ensures ShortParseHex([a, b]) == Err(ValueError)
  {
  }

  lemma ParseHexSignDigit(a: char, b: char)
    requires a == '+' || a == '-'
    requires !IsSpace(b)
    ensures ParseTrimmed([a, b]) == ShortParseHex([a, b])
  {
    assert Unsigned([a, b]) == [b];
    assert DropHexPrefix([b]) == [b];
    if IsHexDigit(b) {
      assert DigitsOf([b]) == [b];
      assert [b][..0] == [];
    }
  }

  lemma ParseTrimmedNoDigits(t: string)
    requires |t| == 2 && t[0] != '+' && t[0] != '-' && !(IsHexDigit(t[0]) && IsHexDigit(t[1]))
    ensures ParseTrimmed(t) == Err(ValueError)
  {
    if t[0] == '0' && (t[1] == 'x' || t[1] == 'X') {
      ParseTrimmedBarePrefix(t);
    } else {
      assert t == [t[0], t[1]];
      NoDigitGroupsOfPair(t[0], t[1]);
      ParseTrimmedUnprefixed(t);
    }
  }

  /** `0x` with no digits after it. */
  lemma ParseTrimmedBarePrefix(t: string)
    requires |t| == 2 && t[0] == '0' && (t[1] == 'x' || t[1] == 'X')
    ensures ParseTrimmed(t) == Err(ValueError)
  {
    assert Unsigned(t) == t;
    assert DropHexPrefix(t) == [];
    ParseTrimmedRejects(t);
  }

  lemma ParseTrimmedUnprefixed(t: string)
    requires |t| == 2 && t[0] != '+' && t[0] != '-' && !(t[0] == '0' && (t[1] == 'x' || t[1] == 'X'))
    requires !DigitGroups(t)
    ensures ParseTrimmed(t) == Err(ValueError)
  {
    assert Unsigned(t) == t;
    assert DropHexPrefix(t) == t;
    ParseTrimmedRejects(t);
  }

  lemma NoDigitGroupsOfPair(a: char, b: char)
    requires !(IsHexDigit(a) && IsHexDigit(b))
    ensures !DigitGroups([a, b])
  {
  }

  /** Text whose digit part is not a DigitGroups text raises ValueError. */
  lemma ParseTrimmedRejects(core: string)
    requires !DigitGroups(DropHexPrefix(Unsigned(core)))
    ensures ParseTrimmed(core) == Err(ValueError)
  {
  }

  datatype Rgb = Rgb(red: int, green: int, blue: int)

  /**
   * The digits `_hex_to_rgb` reads: the colour with every leading '#' removed, repeated whole
   * when three characters remain.
   */
  function ColorDigits(hexColor: string): (body: string)
    ensures body == [] || body[0] != '#'
    ensures |body| != 3
    ensures body == LStrip(hexColor, '#') || body == LStrip(hexColor, '#') + LStrip(hexColor, '#')
  {
    var stripped := LStrip(hexColor, '#');
    if |stripped| == 3 then stripped + stripped else stripped
  }

  /**
   * `_hex_to_rgb(hex_color)`: `int(..., 16)` of the slices 0..2, 2..4 and 4..6 of the digits,
   * which succeeds exactly when all three slices are numbers by the case table.
   */
  function HexToRgb(hexColor: string): (r: Result<Rgb, AppError>)
    ensures var body := ColorDigits(hexColor);
            var red, green, blue := ShortParseHex(Slice(body, 0, 2)), ShortParseHex(Slice(body, 2, 4)),
                                    ShortParseHex(Slice(body, 4, 6));
            && (r.Ok? <==> red.Ok? && green.Ok? && blue.Ok?)
            && (r.Ok? ==> r.value == Rgb(red.value, green.value, blue.value))
    ensures r.Ok? ==> |ColorDigits(hexColor)| >= 5
    ensures r.Ok? ==> && -15 <= r.value.red <= 255 && -15 <= r.value.green <= 255
                      && -15 <= r.value.blue <= 255
    ensures r.Err? ==> r.error == ValueError
  {
    RgbOfDigits(ColorDigits(hexColor))
  }

  /**
   * The three `int(..., 16)` calls on the digits. Each slice has at most two characters, where
   * `int` is the case table ShortParseHex (ParseHexShort); HexToRgbReadsInt states it with ParseHex.
   */
  function RgbOfDigits(body: string): (r: Result<Rgb, AppError>)
    ensures var red, green, blue := ShortParseHex(Slice(body, 0, 2)), ShortParseHex(Slice(body, 2, 4)),
                                    ShortParseHex(Slice(body, 4, 6));
            && (r.Ok? <==> red.Ok? && green.Ok? && blue.Ok?)
            && (r.Ok? ==> r.value == Rgb(red.value, green.value, blue.value))
    ensures r.Err? ==> r.error == ValueError
  {
    var red :- ShortParseHex(Slice(body, 0, 2));
    var green :- ShortParseHex(Slice(body, 2, 4));
    var blue :- ShortParseHex(Slice(body, 4, 6));
    Ok(Rgb(red, green, blue))
  }

  /** `_hex_to_rgb` succeeds exactly when all three `int(..., 16)` calls do, and returns their values. */
  lemma HexToRgbReadsInt(hexColor: string)
    ensures var body := ColorDigits(hexColor);
            var red, green, blue := ParseHex(Slice(body, 0, 2)), ParseHex(Slice(body, 2, 4)),
                                    ParseHex(Slice(body, 4, 6));
            && (HexToRgb(hexColor).Ok? <==> red.Ok? && green.Ok? && blue.Ok?)
            && (HexToRgb(hexColor).Ok? ==> HexToRgb(hexColor).value == Rgb(red.value, green.value, blue.value))
  {
    var body := ColorDigits(hexColor);
    ParseHexShort(Slice(body, 0, 2));
    ParseHexShort(Slice(body, 2, 4));
    ParseHexShort(Slice(body, 4, 6));
  }

  // ---------------------------------------------------------------------------------------------
  // Two-digit lower-case hex formatting, the inverse direction, and what HexToRgb promises.

  function HexDigitChar(v: nat): (c: char)
    requires v < 16
    ensures IsHexDigit(c) && HexDigitValue(c) == v
  {
    if v < 10 then ('0' as int + v) as char else ('a' as int + v - 10) as char
  }

  /** `format(v, '02x')` for a channel value. */
  function Hex2(v: nat): string
    requires v < 256
  {
    [HexDigitChar(v / 16), HexDigitChar(v % 16)]
  }

  predicate IsChannel(v: int) {
    0 <= v < 256
  }

  /** `#rrggbb` without the '#': the text HexToRgb reads back. */
  function FormatRgb(c: Rgb): string
    requires IsChannel(c.red) && IsChannel(c.green) && IsChannel(c.blue)
  {
    Hex2(c.red) + Hex2(c.green) + Hex2(c.blue)
  }

  /** Lower-case form of a hexadecimal digit. */
  function LowerHexDigit(c: char): char
    requires IsHexDigit(c)
  {
    if 'A' <= c <= 'F' then (c as int - 'A' as int + 'a' as int) as char else c
  }

  function LowerHex(s: string): (r: string)
    requires AllHexDigits(s)
    ensures |r| == |s|
  {
    seq(|s|, i requires 0 <= i < |s| => LowerHexDigit(s[i]))
  }

  /** The channel a pair of hex digits gives. */
  function PairValue(a: char, b: char): nat
    requires IsHexDigit(a) && IsHexDigit(b)
  {
    16 * HexDigitValue(a) + HexDigitValue(b)
  }

  lemma ShortParseHexPair(a: char, b: char)
    requires IsHexDigit(a) && IsHexDigit(b)
    ensures ShortParseHex([a, b]) == Ok(PairValue(a, b))
  {
  }

  lemma ShortParseHexDigit(a: char)
    requires IsHexDigit(a)
    ensures ShortParseHex([a]) == Ok(HexDigitValue(a))
  {
  }

  lemma ShortParseHexSigned(sep: char, a: char)
    requires IsSpace(sep) || sep == '+' || sep == '-'
    requires IsHexDigit(a)
    ensures ShortParseHex([sep, a]) == Ok(if sep == '-' then -(HexDigitValue(a) as int) else HexDigitValue(a))
  {
  }

  /** Parsing a formatted channel gives the value back. */
  lemma ParseHex2(v: nat)
    requires v < 256
    ensures ParseHex(Hex2(v)) == Ok(v)
  {
    ShortParseHex2(v);
    ParseHexShort(Hex2(v));
  }

  lemma ShortParseHex2(v: nat)
    requires v < 256
    ensures ShortParseHex(Hex2(v)) == Ok(v)
  {
    ShortParseHexPair(HexDigitChar(v / 16), HexDigitChar(v % 16));
  }

  /** Formatting the value of a pair of digits gives the digits back, in lower case. */
  lemma Hex2OfPairValue(a: char, b: char)
    requires IsHexDigit(a) && IsHexDigit(b)
    ensures 16 * HexDigitValue(a) + HexDigitValue(b) < 256
    ensures Hex2(16 * HexDigitValue(a) + HexDigitValue(b)) == [LowerHexDigit(a), LowerHexDigit(b)]
  {
    var v := 16 * HexDigitValue(a) + HexDigitValue(b);
    assert v / 16 == HexDigitValue(a) && v % 16 == HexDigitValue(b);
  }

  /** Every leading '#' is stripped, so prefixing another one changes nothing. */
  lemma HexToRgbStripsEveryHash(hexColor: string)
    ensures HexToRgb("#" + hexColor) == HexToRgb(hexColor)
  {
    assert ("#" + hexColor)[1..] == hexColor;
  }

  /** A single '#' in front of text that does not start with '#' is all that is stripped. */
  lemma ColorDigitsAfterHash(body: string)
    requires |body| != 3 && (body == [] || body[0] != '#')
    ensures ColorDigits("#" + body) == body
  {
    StripAfterHash(body);
  }

  lemma StripAfterHash(body: string)
    requires body == [] || body[0] != '#'
    ensures LStrip("#" + body, '#') == body
  {
    assert ("#" + body)[1..] == body;
  }

  /** After one '#' and text that neither starts with '#' nor has three characters, HexToRgb reads that text. */
  lemma HexToRgbAfterHash(body: string)
    requires |body| != 3 && (body == [] || body[0] != '#')
    ensures HexToRgb("#" + body) == RgbOfDigits(body)
  {
    ColorDigitsAfterHash(body);
  }

  /**
   * Six hex digits after '#': channel i is the value of digits 2i and 2i+1, and re-formatting
   * the channels gives the digits back up to letter case.
   */
  lemma HexToRgbSixDigits(body: string)
    requires |body| == 6 && AllHexDigits(body)
    ensures HexToRgb("#" + body)
            == Ok(Rgb(PairValue(body[0], body[1]), PairValue(body[2], body[3]), PairValue(body[4], body[5])))
    ensures FormatRgb(HexToRgb("#" + body).value) == LowerHex(body)
  {
    HexToRgbAfterHash(body);
    RgbOfSixDigits(body);
    FormatPairValues(body);
  }

  lemma RgbOfSixDigits(body: string)
    requires |body| == 6 && AllHexDigits(body)
    ensures RgbOfDigits(body)
            == Ok(Rgb(PairValue(body[0], body[1]), PairValue(body[2], body[3]), PairValue(body[4], body[5])))
  {
    assert Slice(body, 0, 2) == [body[0], body[1]];
    assert Slice(body, 2, 4) == [body[2], body[3]];
    assert Slice(body, 4, 6) == [body[4], body[5]];
    ShortParseHexPair(body[0], body[1]);
    ShortParseHexPair(body[2], body[3]);
    ShortParseHexPair(body[4], body[5]);
  }

  lemma FormatPairValues(body: string)
    requires |body| == 6 && AllHexDigits(body)
    ensures var c := Rgb(PairValue(body[0], body[1]), PairValue(body[2], body[3]), PairValue(body[4], body[5]));
            IsChannel(c.red) && IsChannel(c.green) && IsChannel(c.blue) && FormatRgb(c) == LowerHex(body)
  {
    Hex2OfPairValue(body[0], body[1]);
    Hex2OfPairValue(body[2], body[3]);
    Hex2OfPairValue(body[4], body[5]);
    assert LowerHex(body) == [LowerHexDigit(body[0]), LowerHexDigit(body[1])] + [LowerHexDigit(body[2]), LowerHexDigit(body[3])]
                             + [LowerHexDigit(body[4]), LowerHexDigit(body[5])];
  }

  /** Five hex digits after '#' still succeed: the last slice holds one digit. */
  lemma HexToRgbFiveDigits(body: string)
    requires |body| == 5 && AllHexDigits(body)
    ensures HexToRgb("#" + body)
            == Ok(Rgb(PairValue(body[0], body[1]), PairValue(body[2], body[3]), HexDigitValue(body[4])))
  {
    HexToRgbAfterHash(body);
    RgbOfFiveDigits(body);
  }

  lemma RgbOfFiveDigits(body: string)
    requires |body| == 5 && AllHexDigits(body)
    ensures RgbOfDigits(body)
            == Ok(Rgb(PairValue(body[0], body[1]), PairValue(body[2], body[3]), HexDigitValue(body[4])))
  {
    assert Slice(body, 0, 2) == [body[0], body[1]];
    assert Slice(body, 2, 4) == [body[2], body[3]];
    assert Slice(body, 4, 6) == [body[4]];
    ShortParseHexPair(body[0], body[1]);
    ShortParseHexPair(body[2], body[3]);
    ShortParseHexDigit(body[4]);
  }

  /** Round trip: a formatted colour parses back to the same channels. */
  lemma HexToRgbRoundTrip(c: Rgb)
    requires IsChannel(c.red) && IsChannel(c.green) && IsChannel(c.blue)
    ensures HexToRgb("#" + FormatRgb(c)) == Ok(c)
  {
    var text := FormatRgb(c);
    assert IsHexDigit(text[0]);
    HexToRgbAfterHash(text);
    RgbOfFormat(c);
  }

  lemma RgbOfFormat(c: Rgb)
    requires IsChannel(c.red) && IsChannel(c.green) && IsChannel(c.blue)
    ensures RgbOfDigits(FormatRgb(c)) == Ok(c)
  {
    var text := FormatRgb(c);
    assert Slice(text, 0, 2) == Hex2(c.red);
    assert Slice(text, 2, 4) == Hex2(c.green);
    assert Slice(text, 4, 6) == Hex2(c.blue);
    ShortParseHex2(c.red);
    ShortParseHex2(c.green);
    ShortParseHex2(c.blue);
  }

  /**
   * Three hex digits are repeated whole, not digit by digit: `#abc` reads `abcabc`, so the
   * channels are the pairs (a, b), (c, a) and (b, c).
   */
  lemma HexToRgbThreeDigits(body: string)
    requires |body| == 3 && AllHexDigits(body)
    ensures HexToRgb("#" + body)
            == Ok(Rgb(PairValue(body[0], body[1]), PairValue(body[2], body[0]), PairValue(body[1], body[2])))
  {
    var doubled := body + body;
    assert ColorDigits("#" + body) == doubled by {
      StripAfterHash(body);
    }
    assert AllHexDigits(doubled);
    RgbOfSixDigits(doubled);
  }

  /** `#abc` gives (0xab, 0xca, 0xbc), not the digit-doubled (0xaa, 0xbb, 0xcc). */
  lemma HexToRgbThreeDigitExample(a: char, b: char, c: char)
    requires a == 'a' && b == 'b' && c == 'c'
    ensures HexToRgb(['#', a, b, c]) == Ok(Rgb(0xab, 0xca, 0xbc))
  {
    assert ['#', a, b, c] == "#" + [a, b, c];
    HexToRgbThreeDigits([a, b, c]);
  }

  /**
   * Whitespace or a sign in front of single digits is what `int()` accepts, so `# a b c` gives
   * (10, 11, 12) and `#-a-b-c` gives (-10, -11, -12).
   */
  lemma HexToRgbSeparatedDigits(sep: char, a: char, b: char, c: char)
    requires IsSpace(sep) || sep == '+' || sep == '-'
    requires IsHexDigit(a) && IsHexDigit(b) && IsHexDigit(c)
    ensures var sign := if sep == '-' then -1 else 1;
            HexToRgb(['#', sep, a, sep, b, sep, c])
            == Ok(Rgb(sign * HexDigitValue(a), sign * HexDigitValue(b), sign * HexDigitValue(c)))
  {
    var body := [sep, a, sep, b, sep, c];
    assert ['#', sep, a, sep, b, sep, c] == "#" + body;
    HexToRgbAfterHash(body);
    RgbOfSeparatedDigits(sep, a, b, c);
  }

  lemma RgbOfSeparatedDigits(sep: char, a: char, b: char, c: char)
    requires IsSpace(sep) || sep == '+' || sep == '-'
    requires IsHexDigit(a) && IsHexDigit(b) && IsHexDigit(c)
    ensures var sign := if sep == '-' then -1 else 1;
            RgbOfDigits([sep, a, sep, b, sep, c])
            == Ok(Rgb(sign * HexDigitValue(a), sign * HexDigitValue(b), sign * HexDigitValue(c)))
  {
    var body := [sep, a, sep, b, sep, c];
    assert Slice(body, 0, 2) == [sep, a];
    assert Slice(body, 2, 4) == [sep, b];
    assert Slice(body, 4, 6) == [sep, c];
    ShortParseHexSigned(sep, a);
    ShortParseHexSigned(sep, b);
    ShortParseHexSigned(sep, c);
  }

  /** Digits after the sixth are ignored. */
  lemma HexToRgbIgnoresTail(hexColor: string)
    requires |ColorDigits(hexColor)| > 6
    ensures HexToRgb(hexColor) == HexToRgb(ColorDigits(hexColor)[..6])
  {
    var body := ColorDigits(hexColor);
    var head := body[..6];
    assert ColorDigits(head) == head by {
      assert head[0] != '#';
    }
    assert Slice(body, 0, 2) == Slice(head, 0, 2);
    assert Slice(body, 2, 4) == Slice(head, 2, 4);
    assert Slice(body, 4, 6) == Slice(head, 4, 6);
  }

  // =============================================================================================
  // _extract_scenario_number_from_path: `re.match(r'.*scenario_(\d+)\.json', path).group(1)`

  const SCENARIO_PREFIX := "scenario_"
  const SCENARIO_SUFFIX := ".json"

  /** `\d`, restricted to ASCII digits. */
  predicate IsDigit(c: char) {
    '0' <= c <= '9'
  }

  /** Length of the run of digits that starts at index `i`. */
  function DigitRun(s: string, i: nat): (n: nat)
    requires i <= |s|
    ensures i + n <= |s|
    ensures forall k :: i <= k < i + n ==> IsDigit(s[k])
    ensures i + n == |s| || !IsDigit(s[i + n])
    decreases |s| - i
  {
    if i < |s| && IsDigit(s[i]) then 1 + DigitRun(s, i + 1) else 0
  }

  /**
   * The pattern matches with `.*` consuming `path[..p]`: `.` matches anything but a newline,
   * then `scenario_`, a run of digits (it cannot stop early, since `.` is not a digit) and `.json`.
   * There is no end anchor, so anything may follow.
   */
  predicate MatchesAt(path: string, p: nat): (m: bool)
    ensures m ==> p + |SCENARIO_PREFIX| + 1 + |SCENARIO_SUFFIX| <= |path|
  {
    && p + |SCENARIO_PREFIX| <= |path|
    && '\n' !in path[..p]
    && path[p..p + |SCENARIO_PREFIX|] == SCENARIO_PREFIX
    && var start := p + |SCENARIO_PREFIX|;
       var n := DigitRun(path, start);
       && n > 0
       && start + n + |SCENARIO_SUFFIX| <= |path|
       && path[start + n..start + n + |SCENARIO_SUFFIX|] == SCENARIO_SUFFIX
  }

  /** The text of group 1 when the `.*` consumed `path[..p]`. */
  function GroupDigits(path: string, p: nat): (digits: string)
    requires MatchesAt(path, p)
    ensures digits != [] && forall k :: 0 <= k < |digits| ==> IsDigit(digits[k])
  {
    var start := p + |SCENARIO_PREFIX|;
    path[start..start + DigitRun(path, start)]
  }

  function DigitValue(c: char): (v: nat)
    requires IsDigit(c)
    ensures v < 10
  {
    c as int - '0' as int
  }

  /** `int(digits)` for a string of decimal digits: a number with at most that many digits. */
  function DecimalValue(digits: string): (v: nat)
    requires forall k :: 0 <= k < |digits| ==> IsDigit(digits[k])
    ensures v < Pow(10, |digits|)
  {
    if digits == [] then 0
    else 10 * DecimalValue(digits[..|digits| - 1]) + DigitValue(digits[|digits| - 1])
  }

  function DigitChar(v: nat): (c: char)
    requires v < 10
    ensures IsDigit(c) && DigitValue(c) == v
  {
    ('0' as int + v) as char
  }

  /** `str(n)`: the decimal digits of `n`, with no leading zero. */
  function DecimalDigits(n: nat): (digits: string)
    ensures digits != [] && forall k :: 0 <= k < |digits| ==> IsDigit(digits[k])
    ensures |digits| > 1 ==> digits[0] != '0'
  {
    if n < 10 then [DigitChar(n)] else DecimalDigits(n / 10) + [DigitChar(n % 10)]
  }

  /** Reading back the digits of a number gives the number. */
  lemma {:induction false} DecimalValueOfDigits(n: nat)
    ensures DecimalValue(DecimalDigits(n)) == n
  {
    var digits := DecimalDigits(n);
    if n >= 10 {
      assert digits[..|digits| - 1] == DecimalDigits(n / 10);
      DecimalValueOfDigits(n / 10);
    }
  }

  lemma DecimalValueOfDigit(c: char)
    requires IsDigit(c)
    ensures DecimalValue([c]) == DigitValue(c)
  {
    assert [c][..0] == [];
  }

  /**
   * The greedy `.*` backtracks from the longest prefix: the match found is the one with the
   * largest `p` not above `from`.
   */
  function LastMatch(path: string, from: nat): (r: Result<nat, AppError>)
    ensures r.Ok? ==> r.value <= from && MatchesAt(path, r.value)
                      && forall q :: r.value < q <= from ==> !MatchesAt(path, q)
    ensures r.Err? ==> r.error == AttributeError && forall q :: 0 <= q <= from ==> !MatchesAt(path, q)
    decreases from
  {
    if MatchesAt(path, from) then Ok(from)
    else if from == 0 then Err(AttributeError)
    else LastMatch(path, from - 1)
  }

  /**
   * `_extract_scenario_number_from_path(path)`: the number in the last `scenario_<digits>.json`
   * that starts before any newline; AttributeError when there is none.
   */
  function ExtractScenarioNumber(path: string): (r: Result<nat, AppError>)
    ensures r.Ok? <==> exists p :: 0 <= p <= |path| && MatchesAt(path, p)
    ensures r.Ok? ==> exists p :: && 0 <= p <= |path| && MatchesAt(path, p)
                                  && r.value == DecimalValue(GroupDigits(path, p))
                                  && forall q :: p < q <= |path| ==> !MatchesAt(path, q)
    ensures r.Err? ==> r.error == AttributeError
  {
    var p :- LastMatch(path, |path|);
    Ok(DecimalValue(GroupDigits(path, p)))
  }

  /** No match can start within the last fourteen characters: it needs at least fifteen. */
  lemma NoMatchNearEnd(path: string, q: nat)
    requires q + |SCENARIO_PREFIX| + 1 + |SCENARIO_SUFFIX| > |path|
    ensures !MatchesAt(path, q)
  {
  }

  /** When `p` matches and nothing after it does, the result is the number at `p`. */
  lemma ExtractAt(path: string, p: nat)
    requires p <= |path| && MatchesAt(path, p)
    requires forall q :: p < q <= |path| ==> !MatchesAt(path, q)
    ensures ExtractScenarioNumber(path) == Ok(DecimalValue(GroupDigits(path, p)))
  {
  }

  /** The documented example: `../resources/scenarios/scenario_5.json` gives 5. */
  lemma ExtractScenarioNumberExample(path: string)
    requires path == "../resources/scenarios/scenario_5.json"
    ensures ExtractScenarioNumber(path) == Ok(5)
  {
    ExampleMatch(path);
    forall q | 23 < q <= |path|
      ensures !MatchesAt(path, q)
    {
      NoMatchNearEnd(path, q);
    }
    ExtractAt(path, 23);
  }

  lemma ExampleMatch(path: string)
    requires path == "../resources/scenarios/scenario_5.json"
    ensures |path| == 38 && MatchesAt(path, 23) && DecimalValue(GroupDigits(path, 23)) == 5
  {
    ExampleMatchAt(path);
    DecimalValueOfDigit('5');
  }

  lemma ExampleMatchAt(path: string)
    requires path == "../resources/scenarios/scenario_5.json"
    ensures |path| == 38 && MatchesAt(path, 23) && GroupDigits(path, 23) == "5"
  {
    assert '\n' !in path[..23] by {
      assert path[..23] == "../resources/scenarios/";
    }
    assert path[23..32] == SCENARIO_PREFIX by {
    }
    assert DigitRun(path, 32) == 1 by {
      assert IsDigit(path[32]) && !IsDigit(path[33]);
      assert DigitRun(path, 33) == 0;
    }
    assert path[33..38] == SCENARIO_SUFFIX by {
    }
    assert GroupDigits(path, 23) == "5";
  }

  /** The greedy `.*` picks the last occurrence: `scenario_1.json/scenario_2.json` gives 2. */
  lemma ExtractScenarioNumberGreedy(path: string)
    requires path == "scenario_1.json/scenario_2.json"
    ensures ExtractScenarioNumber(path) == Ok(2)
  {
    GreedyMatch(path);
    forall q | 16 < q <= |path|
      ensures !MatchesAt(path, q)
    {
      NoMatchNearEnd(path, q);
    }
    ExtractAt(path, 16);
  }

  lemma GreedyMatch(path: string)
    requires path == "scenario_1.json/scenario_2.json"
    ensures |path| == 31 && MatchesAt(path, 16) && DecimalValue(GroupDigits(path, 16)) == 2
  {
    GreedyMatchAt(path);
    DecimalValueOfDigit('2');
  }

  lemma GreedyMatchAt(path: string)
    requires path == "scenario_1.json/scenario_2.json"
    ensures |path| == 31 && MatchesAt(path, 16) && GroupDigits(path, 16) == "2"
  {
    assert '\n' !in path[..16] by {
      assert path[..16] == "scenario_1.json/";
    }
    assert path[16..25] == SCENARIO_PREFIX by {
    }
    assert DigitRun(path, 25) == 1 by {
      assert IsDigit(path[25]) && !IsDigit(path[26]);
      assert DigitRun(path, 26) == 0;
    }
    assert path[26..31] == SCENARIO_SUFFIX by {
    }
    assert GroupDigits(path, 16) == "2";
  }

  /** A file named `scenario_<n>.json` in a directory without newlines gives `n`, whatever the directory. */
  lemma ExtractScenarioNumberOfFileName(dir: string, n: nat)
    requires '\n' !in dir
    ensures ExtractScenarioNumber(dir + SCENARIO_PREFIX + DecimalDigits(n) + SCENARIO_SUFFIX) == Ok(n)
  {
    var digits := DecimalDigits(n);
    var path := dir + SCENARIO_PREFIX + digits + SCENARIO_SUFFIX;
    FileNameMatches(dir, digits);
    forall q | |dir| < q <= |path|
      ensures !MatchesAt(path, q)
    {
      FileNameMatchesOnce(dir, digits, q);
    }
    ExtractAt(path, |dir|);
    DecimalValueOfDigits(n);
  }

  lemma FileNameMatches(dir: string, digits: string)
    requires '\n' !in dir
    requires digits != [] && forall k :: 0 <= k < |digits| ==> IsDigit(digits[k])
    ensures var path := dir + SCENARIO_PREFIX + digits + SCENARIO_SUFFIX;
            MatchesAt(path, |dir|) && GroupDigits(path, |dir|) == digits
  {
    var path := dir + SCENARIO_PREFIX + digits + SCENARIO_SUFFIX;
    var start := |dir| + |SCENARIO_PREFIX|;
    assert path[..|dir|] == dir;
    assert path[|dir|..start] == SCENARIO_PREFIX;
    assert path[start..start + |digits|] == digits;
    assert path[start + |digits|..start + |digits| + |SCENARIO_SUFFIX|] == SCENARIO_SUFFIX;
    DigitRunOf(path, start, |digits|);
  }

  /** The digit run at `i` is `n` long when `n` digits follow `i` and no further one does. */
  lemma {:induction false} DigitRunOf(s: string, i: nat, n: nat)
    requires i + n <= |s| && (forall k :: i <= k < i + n ==> IsDigit(s[k]))
    requires i + n == |s| || !IsDigit(s[i + n])
    ensures DigitRun(s, i) == n
    decreases n
  {
    if n > 0 {
      DigitRunOf(s, i + 1, n - 1);
    }
  }

  /** After the directory, no later position starts with the 's' that `scenario_` needs. */
  lemma FileNameMatchesOnce(dir: string, digits: string, q: nat)
    requires forall k :: 0 <= k < |digits| ==> IsDigit(digits[k])
    requires |dir| < q
    ensures !MatchesAt(dir + SCENARIO_PREFIX + digits + SCENARIO_SUFFIX, q)
  {
    var path := dir + SCENARIO_PREFIX + digits + SCENARIO_SUFFIX;
    if q + |SCENARIO_PREFIX| <= |path| {
      var j := q - |dir|;
      if j < |SCENARIO_PREFIX| {
        assert path[q] == SCENARIO_PREFIX[j];
      } else if j < |SCENARIO_PREFIX| + |digits| {
        assert path[q] == digits[j - |SCENARIO_PREFIX|];
      }
      assert path[q..q + |SCENARIO_PREFIX|][0] == path[q];
    }
  }

  /** Without digits the pattern does not match and `.group` fails on `None`. */
  lemma ExtractScenarioNumberNoDigits(path: string)
    requires path == "scenario_.json"
    ensures ExtractScenarioNumber(path) == Err(AttributeError)
  {
    forall q | 0 <= q <= |path|
      ensures !MatchesAt(path, q)
    {
      NoMatchNearEnd(path, q);
    }
  }

  lemma {:induction false} DigitRunOfExtension(s: string, t: string, i: nat)
    requires i <= |s| && (i + DigitRun(s, i) < |s|)
    ensures DigitRun(s + t, i) == DigitRun(s, i)
    decreases |s| - i
  {
    if IsDigit(s[i]) {
      DigitRunOfExtension(s, t, i + 1);
    }
  }

  /** There is no end anchor: a match stays a match whatever text is appended. */
  lemma MatchSurvivesSuffix(path: string, t: string, p: nat)
    requires MatchesAt(path, p)
    ensures MatchesAt(path + t, p)
    ensures GroupDigits(path + t, p) == GroupDigits(path, p)
  {
    var start := p + |SCENARIO_PREFIX|;
    DigitRunOfExtension(path, t, start);
    var n := DigitRun(path, start);
    assert (path + t)[..p] == path[..p];
    assert (path + t)[p..start] == path[p..start];
    assert (path + t)[start + n..start + n + |SCENARIO_SUFFIX|] == path[start + n..start + n + |SCENARIO_SUFFIX|];
    assert (path + t)[start..start + n] == path[start..start + n];
  }

  // =============================================================================================
  // update_path_text

  /** `f'({x}, {y})'`, where `show` stands for Python's conversion of a number to text. */
  function PointText(point: (real, real), show: real -> string): (text: string)
    ensures |text| == |show(point.0)| + |show(point.1)| + 4
    ensures text[0] == '(' && text[|text| - 1] == ')'
    ensures text[|show(point.0)| + 1..|show(point.0)| + 3] == ", "
  {
    "(" + show(point.0) + ", " + show(point.1) + ")"
  }

  function TotalLength(items: seq<string>): nat {
    if items == [] then 0 else |items[0]| + TotalLength(items[1..])
  }

  /** `sep.join(items)`: the items in order, the separator between neighbours. */
  function Join(items: seq<string>, sep: string): (r: string)
    ensures items == [] ==> r == []
    ensures items != [] ==> |r| == TotalLength(items) + (|items| - 1) * |sep|
  {
    if items == [] then ""
    else if |items| == 1 then items[0]
    else items[0] + sep + Join(items[1..], sep)
  }

  /** `update_path_text(path)`: the points rendered as `(x, y)` and joined with `', '`. */
  function UpdatePathText(path: seq<(real, real)>, show: real -> string): (text: string)
    ensures text == [] <==> path == []
    ensures path != [] ==> text[0] == '(' && text[|text| - 1] == ')'
  {
    var items := seq(|path|, i requires 0 <= i < |path| => PointText(path[i], show));
    JoinOfPoints(items);
    Join(items, ", ")
  }

  /** Joining non-empty items that each start with '(' and end with ')'. */
  lemma {:induction false} JoinOfPoints(items: seq<string>)
    requires forall i :: 0 <= i < |items| ==> |items[i]| >= 2 && items[i][0] == '(' && items[i][|items[i]| - 1] == ')'
    ensures var text := Join(items, ", ");
            (text == [] <==> items == [])
            && (items != [] ==> text[0] == '(' && text[|text| - 1] == ')')
  {
    if |items| > 1 {
      JoinOfPoints(items[1..]);
    }
  }

  /** Appending an item to a non-empty list appends the separator and the item. */
  lemma {:induction false} JoinAppend(items: seq<string>, item: string, sep: string)
    requires items != []
    ensures Join(items + [item], sep) == Join(items, sep) + sep + item
  {
    if |items| == 1 {
      assert (items + [item])[1..] == [item];
    } else {
      assert (items + [item])[1..] == items[1..] + [item];
      JoinAppend(items[1..], item, sep);
    }
  }

  /** Number of occurrences of `c` in `s`. */
  function Count(s: string, c: char): nat {
    if s == [] then 0 else (if s[0] == c then 1 else 0) + Count(s[1..], c)
  }

  lemma {:induction false} CountConcat(a: string, b: string, c: char)
    ensures Count(a + b, c) == Count(a, c) + Count(b, c)
  {
    if a == [] {
      assert a + b == b;
    } else {
      assert (a + b)[1..] == a[1..] + b;
      CountConcat(a[1..], b, c);
    }
  }

  /** A rendered point holds exactly one '(' when the number texts hold none. */
  lemma PointTextParens(point: (real, real), show: real -> string)
    requires Count(show(point.0), '(') == 0 && Count(show(point.1), '(') == 0
    ensures Count(PointText(point, show), '(') == 1
  {
    var x, y := show(point.0), show(point.1);
    CountConcat("(" + x + ", " + y, ")", '(');
    CountConcat("(" + x + ", ", y, '(');
    CountConcat("(" + x, ", ", '(');
    CountConcat("(", x, '(');
  }

  /**
   * k points render as k items: when no number text contains '(' (Python's number formatting
   * never does), the text holds exactly one '(' per point.
   */
  lemma {:induction false} UpdatePathTextItemCount(path: seq<(real, real)>, show: real -> string)
    requires forall r :: Count(show(r), '(') == 0
    ensures Count(UpdatePathText(path, show), '(') == |path|
  {
    if path != [] {
      var last := path[|path| - 1];
      var init := path[..|path| - 1];
      assert path == init + [last];
      UpdatePathTextItemCount(init, show);
      PointTextParens(last, show);
      UpdatePathTextSnoc(init, last, show);
      if init != [] {
        CountConcat(UpdatePathText(init, show) + ", ", PointText(last, show), '(');
        CountConcat(UpdatePathText(init, show), ", ", '(');
      }
    }
  }

  /** Rendering one more point appends `', '` and the point (just the point for an empty path). */
  lemma UpdatePathTextSnoc(path: seq<(real, real)>, point: (real, real), show: real -> string)
    ensures UpdatePathText(path + [point], show)
            == if path == [] then PointText(point, show) else UpdatePathText(path, show) + ", " + PointText(point, show)
  {
    var items := seq(|path|, i requires 0 <= i < |path| => PointText(path[i], show));
    var items' := seq(|path| + 1, i requires 0 <= i < |path| + 1 => PointText((path + [point])[i], show));
    assert items' == items + [PointText(point, show)];
    if path != [] {
      JoinAppend(items, PointText(point, show), ", ");
    }
  }

  // =============================================================================================
  // _parse_scenario_json

  /** A loaded observation post or radar: `{"center": [x, y], "radius": r}`. */
  datatype RawCircle = RawCircle(center: seq<real>, radius: real)

  /** A loaded asteroids zone: `{"boundary": [[x, y], ...]}`. */
  datatype RawZone = RawZone(boundary: seq<seq<real>>)

  /** The loaded scenario record, its JSON arrays as sequences of numbers. */
  datatype RawScenario = RawScenario(
    source: seq<real>,
    target: seq<real>,
    observationPosts: seq<RawCircle>,
    asteroidsZones: seq<RawZone>,
    radars: seq<RawCircle>)

  /** The tuple `_parse_scenario_json` returns. */
  datatype Scenario = Scenario(
    source: Coordinate,
    target: Coordinate,
    posts: seq<Threat>,
    asteroids: seq<Threat>,
    radars: seq<Threat>)

  /** `Coordinate(c[0], c[1])`: IndexError for fewer than two entries; later entries are ignored. */
  function ParseCoordinate(c: seq<real>): (r: Result<Coordinate, AppError>)
    ensures r.Ok? <==> |c| >= 2
    ensures r.Ok? ==> r.value.x == c[0] && r.value.y == c[1]
    ensures r.Err? ==> r.error == IndexError
  {
    if |c| < 2 then Err(IndexError) else Ok(Coordinate(c[0], c[1]))
  }

  /** A list comprehension over `xs` whose element expression may raise: the first error wins. */
  function MapAll<A, B>(xs: seq<A>, f: A -> Result<B, AppError>): (r: Result<seq<B>, AppError>)
    ensures r.Ok? <==> forall i :: 0 <= i < |xs| ==> f(xs[i]).Ok?
    ensures r.Ok? ==> |r.value| == |xs| && forall i :: 0 <= i < |xs| ==> f(xs[i]) == Ok(r.value[i])
    ensures r.Err? ==> exists i :: 0 <= i < |xs| && f(xs[i]) == Err(r.error)
                                   && forall j :: 0 <= j < i ==> f(xs[j]).Ok?
  {
    if xs == [] then Ok([])
    else
      match f(xs[0])
      case Err(e) => Err(e)
      case Ok(y) =>
        match MapAll(xs[1..], f)
        case Err(e) => (assert forall j :: 1 <= j < |xs| ==> xs[1..][j - 1] == xs[j]; Err(e))
        case Ok(ys) => Ok([y] + ys)
  }

  /** `ObservationPost(Coordinate(raw_post['center'][0], raw_post['center'][1]), raw_post['radius'])`. */
  function ParsePost(raw: RawCircle): (r: Result<Threat, AppError>)
    ensures r.Ok? <==> |raw.center| >= 2
    ensures r.Ok? ==> r.value == ObservationPost(Coordinate(raw.center[0], raw.center[1]), raw.radius)
    ensures r.Err? ==> r.error == IndexError
  {
    var center :- ParseCoordinate(raw.center);
    Ok(ObservationPost(center, raw.radius))
  }

  /** `AsteroidsZone([Coordinate(c[0], c[1]) for c in raw_zone['boundary']])`. */
  function ParseZone(raw: RawZone): (r: Result<Threat, AppError>)
    ensures r.Ok? <==> forall j :: 0 <= j < |raw.boundary| ==> |raw.boundary[j]| >= 2
    ensures r.Ok? ==> && r.value.AsteroidsZone? && |r.value.boundary| == |raw.boundary|
                      && forall j :: 0 <= j < |raw.boundary| ==>
                           r.value.boundary[j] == Coordinate(raw.boundary[j][0], raw.boundary[j][1])
    ensures r.Err? ==> r.error == IndexError
  {
    var boundary :- MapAll(raw.boundary, ParseCoordinate);
    Ok(AsteroidsZone(boundary))
  }

  /** `Radar(Coordinate(raw_radar['center'][0], raw_radar['center'][1]), raw_radar['radius'])`. */
  function ParseRadar(raw: RawCircle): (r: Result<Threat, AppError>)
    ensures r.Ok? <==> |raw.center| >= 2
    ensures r.Ok? ==> r.value == Radar(Coordinate(raw.center[0], raw.center[1]), raw.radius)
    ensures r.Err? ==> r.error == IndexError
  {
    var center :- ParseCoordinate(raw.center);
    Ok(Radar(center, raw.radius))
  }

  /** Every coordinate list in the record has at least two entries. */
  predicate WellFormed(raw: RawScenario) {
    && |raw.source| >= 2
    && |raw.target| >= 2
    && (forall i :: 0 <= i < |raw.observationPosts| ==> |raw.observationPosts[i].center| >= 2)
    && (forall i, j :: 0 <= i < |raw.asteroidsZones| && 0 <= j < |raw.asteroidsZones[i].boundary|
                       ==> |raw.asteroidsZones[i].boundary[j]| >= 2)
    && (forall i :: 0 <= i < |raw.radars| ==> |raw.radars[i].center| >= 2)
  }

  /**
   * `_parse_scenario_json(contents)`: succeeds exactly on well-formed records, and then keeps
   * the count and order of posts, zones, radars and each zone's boundary vertices.
   */
  function ParseScenarioJson(raw: RawScenario): (r: Result<Scenario, AppError>)
    ensures r.Ok? <==> WellFormed(raw)
    ensures r.Err? ==> r.error == IndexError
    ensures r.Ok? ==> ParsedFrom(r.value, raw)
  {
    var source :- ParseCoordinate(raw.source);
    var target :- ParseCoordinate(raw.target);
    var posts :- MapAll(raw.observationPosts, ParsePost);
    var asteroids :- MapAll(raw.asteroidsZones, ParseZone);
    var radars :- MapAll(raw.radars, ParseRadar);
    Ok(Scenario(source, target, posts, asteroids, radars))
  }

  /** `c` holds the first two entries of the list `raw`. */
  predicate CoordinateFrom(c: Coordinate, raw: seq<real>) {
    |raw| >= 2 && c.x == raw[0] && c.y == raw[1]
  }

  /** The scenario holds, entry for entry and in order, what the record describes. */
  predicate ParsedFrom(s: Scenario, raw: RawScenario) {
    && CoordinateFrom(s.source, raw.source)
    && CoordinateFrom(s.target, raw.target)
    && |s.posts| == |raw.observationPosts|
    && (forall i :: 0 <= i < |s.posts| ==>
          s.posts[i].ObservationPost? && s.posts[i].radius == raw.observationPosts[i].radius
          && CoordinateFrom(s.posts[i].center, raw.observationPosts[i].center))
    && |s.asteroids| == |raw.asteroidsZones|
    && (forall i :: 0 <= i < |s.asteroids| ==>
          s.asteroids[i].AsteroidsZone? && |s.asteroids[i].boundary| == |raw.asteroidsZones[i].boundary|
          && forall j :: 0 <= j < |s.asteroids[i].boundary| ==>
               CoordinateFrom(s.asteroids[i].boundary[j], raw.asteroidsZones[i].boundary[j]))
    && |s.radars| == |raw.radars|
    && (forall i :: 0 <= i < |s.radars| ==>
          s.radars[i].Radar? && s.radars[i].radius == raw.radars[i].radius
          && CoordinateFrom(s.radars[i].center, raw.radars[i].center))
  }

  /** Each of the scenario's lists holds only threats of its own kind, as the parser builds them. */
  predicate Typed(s: Scenario) {
    && (forall i :: 0 <= i < |s.posts| ==> s.posts[i].ObservationPost?)
    && (forall i :: 0 <= i < |s.asteroids| ==> s.asteroids[i].AsteroidsZone?)
    && (forall i :: 0 <= i < |s.radars| ==> s.radars[i].Radar?)
  }

  function CoordinateToJson(c: Coordinate): seq<real> {
    [c.x, c.y]
  }

  /** The record a typed scenario is written back to, each coordinate as a two-entry list. */
  function ScenarioToJson(s: Scenario): RawScenario
    requires Typed(s)
  {
    RawScenario(
      CoordinateToJson(s.source),
      CoordinateToJson(s.target),
      seq(|s.posts|, i requires 0 <= i < |s.posts| && s.posts[i].ObservationPost? =>
        RawCircle(CoordinateToJson(s.posts[i].center), s.posts[i].radius)),
      seq(|s.asteroids|, i requires 0 <= i < |s.asteroids| && s.asteroids[i].AsteroidsZone? =>
        RawZone(seq(|s.asteroids[i].boundary|, j requires 0 <= j < |s.asteroids[i].boundary| =>
          CoordinateToJson(s.asteroids[i].boundary[j])))),
      seq(|s.radars|, i requires 0 <= i < |s.radars| && s.radars[i].Radar? =>
        RawCircle(CoordinateToJson(s.radars[i].center), s.radars[i].radius)))
  }

  /** A record determines its parse: two scenarios parsed from the same record are equal. */
  lemma ParsedFromUnique(s1: Scenario, s2: Scenario, raw: RawScenario)
    requires ParsedFrom(s1, raw) && ParsedFrom(s2, raw)
    ensures s1 == s2
  {
    assert s1.posts == s2.posts;
    assert s1.radars == s2.radars;
    forall i | 0 <= i < |s1.asteroids|
      ensures s1.asteroids[i] == s2.asteroids[i]
    {
      assert s1.asteroids[i].boundary == s2.asteroids[i].boundary;
    }
    assert s1.asteroids == s2.asteroids;
  }

  /** Round trip: writing a typed scenario out as a record and parsing it gives it back. */
  lemma ParseScenarioJsonRoundTrip(s: Scenario)
    requires Typed(s)
    ensures ParseScenarioJson(ScenarioToJson(s)) == Ok(s)
  {
    var raw := ScenarioToJson(s);
    assert WellFormed(raw);
    assert ParsedFrom(s, raw);
    ParsedFromUnique(ParseScenarioJson(raw).value, s, raw);
  }

  /**
   * The parsed lists hold only their own kind, so when the app passes
   * `posts + asteroids + radars` to `navigate`, its filters hand the three lists back.
   */
  lemma ParsedThreatsPartition(raw: RawScenario)
    requires WellFormed(raw)
    ensures var s := ParseScenarioJson(raw).value;
            Partition(s.posts + s.asteroids + s.radars) == ThreatsByKind(s.posts, s.asteroids, s.radars)
  {
    var s := ParseScenarioJson(raw).value;
    PartitionOfConcatenation(s.posts, s.asteroids, s.radars);
  }
}
