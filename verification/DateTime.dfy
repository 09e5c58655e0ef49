/** Packed datetimes: calendar fields in one 64-bit word, their ISO 8601 UTC form, and the rough
    calendar of a boot-time clock. */
module DateTime {
  import opened Common

  datatype Stamp = Stamp(year: nat, month: nat, day: nat, hour: nat, min: nat, sec: nat)

  const YEAR_BIAS: nat := 1970

  // ---------------------------------------------------------------- packing

  /** C division by 15. */
  function Div15(x: int): int {
    if x >= 0 then x / 15 else -((-x) / 15)
  }

  /** The timezone in 15-minute increments, clamped to a signed byte. */
  function Increments(tz: int): (n: int)
    ensures -128 <= n <= 127
  {
    var n := Div15(tz);
    if n < -128 then -128 else if n > 127 then 127 else n
  }

  /** The byte that stores a signed increment. */
  function TzByte(n: int): (b: nat)
    requires -128 <= n <= 127
    ensures b < 256
  {
    if n < 0 then n + 256 else n
  }

  /** Every field reduced to its width, at its place: seconds and minutes 6 bits, hours and days 5,
      months 4, biased years 8, timezone 8. */
  function Pack(t: Stamp, tz: int): (b: nat)
    requires YEAR_BIAS <= t.year
  {
    t.sec % 64 + 0x40 * (t.min % 64) + 0x1000 * (t.hour % 32) + 0x2_0000 * (t.day % 32) + 0x40_0000 * (t.month % 16)
    + 0x400_0000 * ((t.year - YEAR_BIAS) % 256) + 0x4_0000_0000 * TzByte(Increments(tz))
  }

  function Unpack(bits: nat): Stamp {
    Stamp(bits / 0x400_0000 % 256 + YEAR_BIAS, bits / 0x40_0000 % 16, bits / 0x2_0000 % 32, bits / 0x1000 % 32,
          bits / 0x40 % 64, bits % 64)
  }

  /** The timezone bias in minutes. */
  function UnpackTz(bits: nat): int {
    var u := bits / 0x4_0000_0000 % 256;
    15 * (if u <= 127 then u else u - 256)
  }

  /** Calendar fields in their ranges. */
  predicate Valid(t: Stamp) {
    && YEAR_BIAS <= t.year <= YEAR_BIAS + 255 && 1 <= t.month <= 12 && 1 <= t.day <= 31
    && t.hour <= 23 && t.min <= 59 && t.sec <= 59
  }

  /** Fields that fit their bits. */
  predicate Fits(t: Stamp) {
    YEAR_BIAS <= t.year <= YEAR_BIAS + 255 && t.month < 16 && t.day < 32 && t.hour < 32 && t.min < 64 && t.sec < 64
  }

  /** The masked fields occupy disjoint bits: joining them with OR is adding them, and masking in place
      then shifting down is shifting down then masking. */
  lemma OrIsSum(s: bv64, mi: bv64, h: bv64, d: bv64, mo: bv64, y: bv64, tz: bv64)
    ensures (s & 0x3F) | ((mi & 0x3F) << 6) | ((h & 0x1F) << 12) | ((d & 0x1F) << 17) | ((mo & 0xF) << 22)
            | ((y & 0xFF) << 26) | ((tz & 0xFF) << 34)
            == (s & 0x3F) + ((mi & 0x3F) << 6) + ((h & 0x1F) << 12) + ((d & 0x1F) << 17) + ((mo & 0xF) << 22)
            + ((y & 0xFF) << 26) + ((tz & 0xFF) << 34)
  {
  }

  /** The packed word, field by field from the top. */
  lemma PackedDigits(s: nat, mi: nat, h: nat, d: nat, mo: nat, y: nat, z: nat, b: nat)
    requires s < 64 && mi < 64 && h < 32 && d < 32 && mo < 16 && y < 256
    requires b == s + 0x40 * mi + 0x1000 * h + 0x2_0000 * d + 0x40_0000 * mo + 0x400_0000 * y + 0x4_0000_0000 * z
    ensures b % 64 == s && b / 0x40 % 64 == mi && b / 0x1000 % 32 == h && b / 0x2_0000 % 32 == d
    ensures b / 0x40_0000 % 16 == mo && b / 0x400_0000 % 256 == y && b / 0x4_0000_0000 == z
  {
    var z6 := z;
    var z5 := y + 256 * z6;
    var z4 := mo + 16 * z5;
    var z3 := d + 32 * z4;
    var z2 := h + 32 * z3;
    var z1 := mi + 64 * z2;
    assert b == s + 64 * z1;
    DivUnique(b, 64, z1, s);
    DivUnique(b, 0x1000, z2, s + 64 * mi);
    DivUnique(b, 0x2_0000, z3, s + 64 * mi + 0x1000 * h);
    DivUnique(b, 0x40_0000, z4, s + 64 * mi + 0x1000 * h + 0x2_0000 * d);
    DivUnique(b, 0x400_0000, z5, s + 64 * mi + 0x1000 * h + 0x2_0000 * d + 0x40_0000 * mo);
    DivUnique(b, 0x4_0000_0000, z6, s + 64 * mi + 0x1000 * h + 0x2_0000 * d + 0x40_0000 * mo + 0x400_0000 * y);
    DivUnique(z1, 64, z2, mi);
    DivUnique(z2, 32, z3, h);
    DivUnique(z3, 32, z4, d);
    DivUnique(z4, 16, z5, mo);
    DivUnique(z5, 256, z6, y);
  }

  /** The word with the fields of t and timezone byte z (or more, above). */
  function Word(t: Stamp, z: nat): nat
    requires Fits(t)
  {
    t.sec + 0x40 * t.min + 0x1000 * t.hour + 0x2_0000 * t.day + 0x40_0000 * t.month + 0x400_0000 * (t.year - YEAR_BIAS)
    + 0x4_0000_0000 * z
  }

  lemma PackIsWord(t: Stamp, tz: int)
    requires Fits(t)
    ensures Pack(t, tz) == Word(t, TzByte(Increments(tz)))
  {
    hide Increments;
    hide TzByte;
  }

  lemma UnpackWord(t: Stamp, z: nat)
    requires Fits(t)
    ensures Unpack(Word(t, z)) == t && Word(t, z) / 0x4_0000_0000 == z
    ensures Word(t, z) % 0x4_0000_0000 == Word(t, 0)
  {
    var w := Word(t, z);
    PackedDigits(t.sec, t.min, t.hour, t.day, t.month, t.year - YEAR_BIAS, z, w);
    DivUnique(w, 0x4_0000_0000, z, Word(t, 0));
    hide Word;
  }

  /** Unpacking a packed stamp gives its fields back, and the stored increments of its timezone. */
  lemma UnpackPack(t: Stamp, tz: int)
    requires Fits(t)
    ensures Unpack(Pack(t, tz)) == t
    ensures UnpackTz(Pack(t, tz)) == 15 * Increments(tz)
  {
    assert YEAR_BIAS <= t.year;
    hide *;
    PackIsWord(t, tz);
    UnpackWord(t, TzByte(Increments(tz)));
    TzBack(Increments(tz), Pack(t, tz));
  }

  /** Where the fields stand in the word: 6 bits of seconds, 6 of minutes, 5 of hours, 5 of days, 4 of months, 8 of
      years from 1970, and on top the timezone in steps of 15 minutes, cut toward zero, as a signed byte. */
  lemma PackedFields(t: Stamp, tz: int)
    requires 1970 <= t.year <= 2225 && t.month <= 12 && t.day <= 31 && t.hour <= 23 && t.min <= 59 && t.sec <= 60
    ensures var b := Pack(t, tz);
            && b % 64 == t.sec && b / 0x40 % 64 == t.min && b / 0x1000 % 32 == t.hour && b / 0x2_0000 % 32 == t.day
            && b / 0x40_0000 % 16 == t.month && b / 0x400_0000 % 256 == t.year - 1970
    ensures var z := Pack(t, tz) / 0x4_0000_0000; var n := if z < 128 then z else z - 256;
            && z < 256 && (-1935 < tz < 1920 ==> -15 < tz - 15 * n < 15 && (tz >= 15 * n) == (tz >= 0 || tz == 15 * n))
            && (tz <= -1935 ==> n == -128) && (tz >= 1920 ==> n == 127)
  {
    var z := TzByte(Increments(tz));
    PackIsWord(t, tz);
    PackedDigits(t.sec, t.min, t.hour, t.day, t.month, t.year - 1970, z, Word(t, z));
  }

  /** A field that is too wide for its bits keeps the low ones, and disturbs no other. */
  lemma PackMasks(t: Stamp, tz: int)
    requires 1970 <= t.year
    ensures Pack(t, tz) == Pack(Stamp(1970 + (t.year - 1970) % 256, t.month % 16, t.day % 32, t.hour % 32, t.min % 64,
                                      t.sec % 64), tz)
  {
    assert t.sec % 64 % 64 == t.sec % 64 && t.min % 64 % 64 == t.min % 64 && t.hour % 32 % 32 == t.hour % 32;
    assert t.day % 32 % 32 == t.day % 32 && t.month % 16 % 16 == t.month % 16;
    assert (t.year - 1970) % 256 % 256 == (t.year - 1970) % 256;
    hide Increments;
    hide TzByte;
  }

  /** The byte that was stored on top reads as the signed increments. */
  lemma TzBack(n: int, w: nat)
    requires -128 <= n <= 127 && w / 0x4_0000_0000 == TzByte(n)
    ensures UnpackTz(w) == 15 * n
  {
  }

  /** The timezone comes back exactly when it is a multiple of 15 minutes between -32 and +31.75 hours. */
  lemma TzExactly(t: Stamp, tz: int)
    requires Fits(t)
    ensures UnpackTz(Pack(t, tz)) == tz <==> tz % 15 == 0 && -1920 <= tz <= 1905
  {
    UnpackPack(t, tz);
  }

  /** Calendar order. */
  predicate Earlier(a: Stamp, b: Stamp) {
    a.year < b.year || (a.year == b.year && (a.month < b.month || (a.month == b.month && (a.day < b.day ||
    (a.day == b.day && (a.hour < b.hour || (a.hour == b.hour
        && (a.min < b.min || (a.min == b.min && a.sec < b.sec)))))))))
  }

  /** With equal timezones the words are ordered as the calendar fields are. */
  lemma OrderKept(a: Stamp, b: Stamp, tz: int)
    requires Fits(a) && Fits(b)
    ensures Pack(a, tz) < Pack(b, tz) <==> Earlier(a, b)
  {
    var z := TzByte(Increments(tz));
    PackNested(a, tz);
    PackNested(b, tz);
    hide Pack;
    hide Over;
    hide TzByte;
    hide Increments;
    var a5, b5 := Over(a.year - YEAR_BIAS, z, 256), Over(b.year - YEAR_BIAS, z, 256);
    var a4, b4 := Over(a.month, a5, 16), Over(b.month, b5, 16);
    var a3, b3 := Over(a.day, a4, 32), Over(b.day, b4, 32);
    var a2, b2 := Over(a.hour, a3, 32), Over(b.hour, b3, 32);
    var a1, b1 := Over(a.min, a2, 64), Over(b.min, b2, 64);
    Lexical(a.sec, a1, b.sec, b1, 64);
    Lexical(a.min, a2, b.min, b2, 64);
    Lexical(a.hour, a3, b.hour, b3, 32);
    Lexical(a.day, a4, b.day, b4, 32);
    Lexical(a.month, a5, b.month, b5, 16);
    Lexical(a.year - YEAR_BIAS, z, b.year - YEAR_BIAS, z, 256);
  }

  /** A digit below the rest of a mixed-radix number. */
  function Over(x: nat, p: nat, d: nat): nat {
    x + d * p
  }

  lemma PackNested(t: Stamp, tz: int)
    requires Fits(t)
    ensures Pack(t, tz) == Over(t.sec, Over(t.min, Over(t.hour, Over(t.day, Over(t.month,
                             Over(t.year - YEAR_BIAS, TzByte(Increments(tz)), 256), 16), 32), 32), 64), 64)
  {
  }

  lemma Lexical(x: nat, p: nat, y: nat, q: nat, d: nat)
    requires x < d && y < d
    ensures Over(x, p, d) < Over(y, q, d) <==> p < q || (p == q && x < y)
    ensures Over(x, p, d) == Over(y, q, d) <==> p == q && x == y
  {
    if p < q {
      MulMono(p + 1, q, d);
    } else if q < p {
      MulMono(q + 1, p, d);
    }
  }

  /** tpb_ts_datetime_to_bits: fails on years outside 1970 to 2225. */
  method ToBits(t: Stamp, tz: int) returns (ok: bool, bits: nat)
    ensures ok <==> 1970 <= t.year <= 2225
    ensures ok ==> bits == Pack(t, tz)
  {
    if t.year < YEAR_BIAS || t.year > YEAR_BIAS + 255 { return false, 0; }
    var b: nat := 0;
    b := b + t.sec % 64;
    b := b + 0x40 * (t.min % 64);
    b := b + 0x1000 * (t.hour % 32);
    b := b + 0x2_0000 * (t.day % 32);
    b := b + 0x40_0000 * (t.month % 16);
    b := b + 0x400_0000 * ((t.year - YEAR_BIAS) % 256);
    var inc := Div15(tz);
    if inc < -128 { inc := -128; }
    if inc > 127 { inc := 127; }
    b := b + 0x4_0000_0000 * TzByte(inc);
    return true, b;
  }

  // ---------------------------------------------------------------- ISO 8601 UTC

  function DigitChar(d: nat): char
    requires d < 10
  {
    '0' + d as char
  }

  function Two(n: nat): (s: string)
    requires n < 100
    ensures |s| == 2
  {
    [DigitChar(n / 10), DigitChar(n % 10)]
  }

  /** YYYY-MM-DDThh:mm:ssZ */
  function Iso(t: Stamp): (s: string)
    requires t.year < 10000 && t.month < 100 && t.day < 100 && t.hour < 100 && t.min < 100 && t.sec < 100
    ensures |s| == 20
  {
    Two(t.year / 100) + Two(t.year % 100) + "-" + Two(t.month) + "-" + Two(t.day) + "T" + Two(t.hour) + ":" + Two(t.min)
    + ":" + Two(t.sec) + "Z"
  }

  /** tpb_ts_bits_to_isoutc; 20 characters always fit the 32-byte buffer. */
  function Print(bits: nat): (s: string)
    ensures |s| == 20
  {
    Iso(Unpack(bits))
  }

  predicate IsDigit(c: char) {
    '0' <= c <= '9'
  }

  predicate IsSpace(c: char) {
    c == ' ' || c == '\t' || c == '\n' || c == '\r' || c == 0x0B as char || c == 0x0C as char
  }

  function SkipSpace(s: string): (r: string)
    ensures |r| <= |s|
  {
    if s != "" && IsSpace(s[0]) then SkipSpace(s[1..]) else s
  }

  /** Up to `width` digits, with the value read before them. */
  function Digits(s: string, width: nat, v: nat): (nat, string)
    decreases width
  {
    if width == 0 || s == "" || !IsDigit(s[0]) then (v, s)
    else Digits(s[1..], width - 1, 10 * v + (s[0] - '0') as nat)
  }

  /** A %<width>u conversion: blanks skipped, an optional sign that counts for the width, at least one
      digit; a minus sign negates modulo 2^32. */
  function ScanU(s: string, width: nat): Option<(nat, string)>
    requires 0 < width <= 4
  {
    var t := SkipSpace(s);
    var signed := t != "" && (t[0] == '+' || t[0] == '-');
    var u, w := if signed then t[1..] else t, if signed then width - 1 else width;
    if w == 0 || u == "" || !IsDigit(u[0]) then None
    else
      var (v, rest) := Digits(u, w, 0);
      Some((if signed && t[0] == '-' then (0x1_0000_0000 - v) % 0x1_0000_0000 else v, rest))
  }

  /** A literal character of the format. */
  function ScanC(s: string, c: char): Option<string> {
    if s != "" && s[0] == c then Some(s[1..]) else None
  }

  /** A number, and the literal behind it. */
  function ScanField(s: string, width: nat, c: char): Option<(nat, string)>
    requires 0 < width <= 4
  {
    match ScanU(s, width)
    case None => None
    case Some((v, rest)) =>
      match ScanC(rest, c)
      case None => None
      case Some(after) => Some((v, after))
  }

  /** The six conversions of tpb_ts_isoutc_to_bits; the final Z does not count. */
  function Scan(s: string): Option<Stamp> {
    match ScanField(s, 4, '-')
    case None => None
    case Some((year, s1)) =>
    match ScanField(s1, 2, '-')
    case None => None
    case Some((month, s2)) =>
    match ScanField(s2, 2, 'T')
    case None => None
    case Some((day, s3)) =>
    match ScanField(s3, 2, ':')
    case None => None
    case Some((hour, s4)) =>
    match ScanField(s4, 2, ':')
    case None => None
    case Some((min, s5)) =>
    match ScanU(s5, 2)
    case None => None
    case Some((sec, _)) => Some(Stamp(year % 0x1_0000, month % 256, day % 256, hour % 256, min % 256, sec % 256))
  }

  /** tpb_ts_isoutc_to_bits */
  function Parse(s: string): Option<nat> {
    match Scan(s)
    case None => None
    case Some(t) => if YEAR_BIAS <= t.year <= YEAR_BIAS + 255 then Some(Pack(t, 0)) else None
  }

  lemma DigitIs(d: nat)
    requires d < 10
    ensures IsDigit(DigitChar(d)) && !IsSpace(DigitChar(d)) && (DigitChar(d) - '0') as nat == d
    ensures DigitChar(d) != '+' && DigitChar(d) != '-'
  {
  }

  lemma DigitsStep(d: nat, rest: string, width: nat, v: nat)
    requires d < 10 && width > 0
    ensures Digits([DigitChar(d)] + rest, width, v) == Digits(rest, width - 1, 10 * v + d)
  {
    DigitIs(d);
    assert ([DigitChar(d)] + rest)[1..] == rest;
  }

  lemma DigitsTwo(n: nat, rest: string, width: nat, v: nat)
    requires n < 100 && width >= 2
    ensures Digits(Two(n) + rest, width, v) == Digits(rest, width - 2, 100 * v + n)
  {
    hide Digits;
    assert Two(n) + rest == [DigitChar(n / 10)] + ([DigitChar(n % 10)] + rest);
    DigitsStep(n / 10, [DigitChar(n % 10)] + rest, width, v);
    DigitsStep(n % 10, rest, width - 1, 10 * v + n / 10);
  }

  /** A conversion that starts at two digits reads digits only. */
  lemma ScanPlain(n: nat, rest: string, width: nat)
    requires n < 100 && 2 <= width <= 4
    ensures var s := Two(n) + rest; ScanU(s, width) == Some(Digits(s, width, 0))
  {
    hide Digits;
    var s := Two(n) + rest;
    DigitIs(n / 10);
    assert s[0] == DigitChar(n / 10);
    assert SkipSpace(s) == s;
    var r := Digits(s, width, 0);
    assert r == (r.0, r.1);
  }

  lemma ScanTwo(n: nat, c: char, rest: string)
    requires n < 100
    ensures ScanField(Two(n) + ([c] + rest), 2, c) == Some((n, rest))
    ensures ScanU(Two(n) + rest, 2) == Some((n, rest))
  {
    ScanPlain(n, [c] + rest, 2);
    ScanPlain(n, rest, 2);
    DigitsTwo(n, [c] + rest, 2, 0);
    DigitsTwo(n, rest, 2, 0);
    assert Digits([c] + rest, 0, n) == (n, [c] + rest);
    assert ([c] + rest)[1..] == rest;
  }

  lemma ScanFour(a: nat, b: nat, c: char, rest: string)
    requires a < 100 && b < 100
    ensures ScanField(Two(a) + (Two(b) + ([c] + rest)), 4, c) == Some((100 * a + b, rest))
  {
    ScanPlain(a, Two(b) + ([c] + rest), 4);
    DigitsTwo(a, Two(b) + ([c] + rest), 4, 0);
    DigitsTwo(b, [c] + rest, 2, a);
    assert Digits([c] + rest, 0, 100 * a + b) == (100 * a + b, [c] + rest);
    assert ([c] + rest)[1..] == rest;
  }

  /** The value of a digit. */
  function Value(c: char): int {
    c as int - 48
  }

  /** The printed form, character by character. */
  lemma IsoReads(t: Stamp)
    requires t.year < 10000 && t.month < 100 && t.day < 100 && t.hour < 100 && t.min < 100 && t.sec < 100
    ensures var s := Iso(t);
            && s[4] == '-' && s[7] == '-' && s[10] == 'T' && s[13] == ':' && s[16] == ':' && s[19] == 'Z'
            && (forall k :: 0 <= k < 20 && k !in {4, 7, 10, 13, 16, 19} ==> 0 <= Value(s[k]) <= 9)
            && 1000 * Value(s[0]) + 100 * Value(s[1]) + 10 * Value(s[2]) + Value(s[3]) == t.year
            && 10 * Value(s[5]) + Value(s[6]) == t.month && 10 * Value(s[8]) + Value(s[9]) == t.day
            && 10 * Value(s[11]) + Value(s[12]) == t.hour && 10 * Value(s[14]) + Value(s[15]) == t.min
            && 10 * Value(s[17]) + Value(s[18]) == t.sec
  {
    TwoReads(t.year / 100);
    TwoReads(t.year % 100);
    TwoReads(t.month);
    TwoReads(t.day);
    TwoReads(t.hour);
    TwoReads(t.min);
    TwoReads(t.sec);
    hide Two;
    hide Value;
  }

  lemma TwoReads(n: nat)
    requires n < 100
    ensures 10 * Value(Two(n)[0]) + Value(Two(n)[1]) == n
    ensures 0 <= Value(Two(n)[0]) <= 9 && 0 <= Value(Two(n)[1]) <= 9
  {
  }

  /** A conversion skips blanks. */
  lemma ScanBlank(c: char, s: string, width: nat)
    requires 0 < width <= 4
    requires c == ' ' || c == '\t' || c == '\n' || c == '\r' || c == 0x0B as char || c == 0x0C as char
    ensures ScanU([c] + s, width) == ScanU(s, width)
  {
    assert ([c] + s)[1..] == s && SkipSpace([c] + s) == SkipSpace(s);
    hide Digits;
  }

  /** It takes a sign that counts for the width; a minus negates modulo 2^32. */
  lemma ScanSign(c: char, d: char, s: string, width: nat)
    requires (c == '+' || c == '-') && '0' <= d <= '9' && 1 < width <= 4
    ensures match ScanU([d] + s, width - 1)
            case None => false
            case Some((v, rest)) =>
              ScanU([c, d] + s, width) == Some((if c == '-' && v > 0 then 0x1_0000_0000 - v else v, rest))
  {
    var t := [d] + s;
    DigitsBelow(t, width - 1, 0);
    assert ([c, d] + s)[1..] == t && t[0] == d && SkipSpace(t) == t && SkipSpace([c, d] + s) == [c, d] + s;
    var r := Digits(t, width - 1, 0);
    assert r == (r.0, r.1);
    hide Digits;
  }

  /** It fails where no digit follows the blanks and the sign. */
  lemma ScanFails(c: char, s: string, width: nat)
    requires 0 < width <= 4 && !('0' <= c <= '9')
    ensures ScanU("", width) == None
    ensures c !in " \t\n\r+-" && c != 0x0B as char && c != 0x0C as char ==> ScanU([c] + s, width) == None
    ensures (c == '+' || c == '-') && (width == 1 || s == "" || !('0' <= s[0] <= '9')) ==> ScanU([c] + s, width) == None
  {
    assert ([c] + s)[1..] == s && ([c] + s)[0] == c;
    hide Digits;
  }

  /** At most the number that the width allows. */
  lemma {:induction false} DigitsBelow(s: string, width: nat, v: nat)
    requires width <= 4
    ensures Digits(s, width, v).0 <= match width case 0 => v case 1 => 10 * v + 9 case 2 => 100 * v + 99
                                                 case 3 => 1000 * v + 999 case _ => 10000 * v + 9999
    decreases width
  {
    if width != 0 && s != "" && IsDigit(s[0]) {
      DigitsBelow(s[1..], width - 1, 10 * v + (s[0] - '0') as nat);
    }
  }

  /** Parsing takes the scanned fields for the years 1970 to 2225 alone, with no timezone. */
  lemma ParseExactly(s: string)
    ensures match Scan(s)
            case None => Parse(s) == None
            case Some(t) => Parse(s) == if 1970 <= t.year <= 2225 then Some(Pack(t, 0)) else None
  {
    hide Scan;
    hide Pack;
  }

  /** Scanning a printed stamp reads its fields. */
  lemma ScanIso(t: Stamp)
    requires t.year < 10000 && t.month < 100 && t.day < 100 && t.hour < 100 && t.min < 100 && t.sec < 100
    ensures Scan(Iso(t)) == Some(t)
  {
    hide ScanField;
    hide ScanU;
    hide Two;
    var s5 := Two(t.sec) + "Z";
    var s4 := Two(t.min) + ([':'] + s5);
    var s3 := Two(t.hour) + ([':'] + s4);
    var s2 := Two(t.day) + (['T'] + s3);
    var s1 := Two(t.month) + (['-'] + s2);
    var s := Two(t.year / 100) + (Two(t.year % 100) + (['-'] + s1));
    assert Iso(t) == s;
    ScanFour(t.year / 100, t.year % 100, '-', s1);
    ScanTwo(t.month, '-', s2);
    ScanTwo(t.day, 'T', s3);
    ScanTwo(t.hour, ':', s4);
    ScanTwo(t.min, ':', s5);
    ScanTwo(t.sec, 'Z', "Z");
  }

  /** Parsing the printed form of any word gives its low 34 bits: the timezone is not printed. */
  lemma ParsePrint(bits: nat)
    ensures Parse(Print(bits)) == Some(bits % 0x4_0000_0000)
  {
    hide Iso;
    hide Scan;
    var t := Unpack(bits);
    ScanIso(t);
    PackUnpack(bits);
    hide Pack;
    hide Unpack;
    hide Fits;
  }

  lemma PackUnpack(bits: nat)
    ensures Pack(Unpack(bits), 0) == bits % 0x4_0000_0000
    ensures Fits(Unpack(bits))
  {
    var t, z := FieldsOf(bits);
    UnpackWord(t, z);
    PackIsWord(t, 0);
    ZeroTz();
    hide Pack;
    hide Unpack;
    hide Word;
    hide Fits;
  }

  lemma ZeroTz()
    ensures TzByte(Increments(0)) == 0
  {
  }

  lemma FieldsOf(b: nat) returns (t: Stamp, z: nat)
    ensures Fits(t) && b == Word(t, z)
  {
    var r := b;
    var s, mi, h, d, mo, y;
    s, r := r % 64, r / 64;
    mi, r := r % 64, r / 64;
    h, r := r % 32, r / 32;
    assert b == s + 0x40 * mi + 0x1000 * h + 0x2_0000 * r;
    d, r := r % 32, r / 32;
    mo, r := r % 16, r / 16;
    y, z := r % 256, r / 256;
    t := Stamp(YEAR_BIAS + y, mo, d, h, mi, s);
  }

  // ---------------------------------------------------------------- boot time

  const MINUTE: nat := 60
  const HOUR: nat := 3600
  const DAY: nat := 86400
  const MONTH: nat := 730 * 3600
  const YEAR: nat := 8760 * 3600

  /** The seconds that a rough calendar stands for. */
  function Seconds(t: Stamp): int {
    (t.year - YEAR_BIAS) * YEAR + (t.month - 1) * MONTH + (t.day - 1) * DAY + t.hour * HOUR + t.min * MINUTE + t.sec
  }

  /** As many whole years as fit, up to 255, then months of the rest, up to 11, then days, up to 30, then hours (modulo
      256), minutes and seconds. */
  predicate Greedy(sec: int, t: Stamp) {
    var r1 := sec - 31_536_000 * (t.year - 1970);
    var r2 := r1 - 2_628_000 * (t.month - 1);
    var r3 := r2 - 86_400 * (t.day - 1);
    && 0 <= r1 && 1970 <= t.year <= 2225 && (t.year < 2225 ==> r1 < 31_536_000)
    && 0 <= r2 && 1 <= t.month <= 12 && (t.month < 12 ==> r2 < 2_628_000)
    && 0 <= r3 && 1 <= t.day <= 31 && (t.day < 31 ==> r3 < 86_400)
    && t.sec == r3 % 60 && t.min == r3 / 60 % 60 && t.hour == r3 / 3600 % 256
  }

  /** Nothing else is as greedy. */
  lemma GreedyUnique(sec: nat, t: Stamp, u: Stamp)
    requires Greedy(sec, t) && Greedy(sec, u)
    ensures t == u
  {
    assert t.year == u.year;
    assert t.month == u.month;
    assert t.day == u.day;
  }

  /** tpb_ts_btime_to_datetime: years of 365 days, months of 730 hours. The fields are a valid stamp that
      stands for exactly the given seconds if and only if these stay below 255 years, 11 months and 31
      days; past that the year, month and day are clamped and the hour no longer fits. */
  method BtimeToDatetime(sec: nat) returns (t: Stamp)
    ensures (Valid(t) && Seconds(t) == sec) <==> sec < 255 * 31_536_000 + 11 * 2_628_000 + 31 * 86_400
    ensures Greedy(sec, t)
  {
    hide Valid;
    hide Greedy;
    hide Seconds;
    var total := sec;
    var years := total / YEAR;
    if years > 255 { years := 255; }
    total := total - years * YEAR;
    ghost var r1 := total;
    assert sec == years * YEAR + r1 && (years == 255 || r1 < YEAR);
    var months := total / MONTH;
    if months > 11 { months := 11; }
    total := total - months * MONTH;
    ghost var r2 := total;
    assert r1 == months * MONTH + r2 && (months == 11 || r2 < MONTH);
    var days := total / DAY;
    if days > 30 { days := 30; }
    total := total - days * DAY;
    ghost var r3 := total;
    assert r2 == days * DAY + r3 && (days == 30 || r3 < DAY);
    var hours := total / HOUR;
    total := total - hours * HOUR;
    var mins := total / MINUTE;
    total := total - mins * MINUTE;
    assert r3 == hours * HOUR + mins * MINUTE + total && total < MINUTE && mins * MINUTE + total < HOUR;
    ClampedExactly(sec, years, r1, months, r2, days, r3, hours, mins, total);
    t := Stamp((YEAR_BIAS + years) % 0x1_0000, 1 + months, 1 + days, hours % 256, mins, total);
  }

  lemma ClampedExactly(sec: nat, y: nat, r1: nat, mo: nat, r2: nat, d: nat, r3: nat, h: nat, mi: nat, s: nat)
    requires sec == y * YEAR + r1 && y <= 255 && (y == 255 || r1 < YEAR)
    requires r1 == mo * MONTH + r2 && mo <= 11 && (mo == 11 || r2 < MONTH)
    requires r2 == d * DAY + r3 && d <= 30 && (d == 30 || r3 < DAY)
    requires r3 == h * HOUR + mi * MINUTE + s && s < MINUTE && mi * MINUTE + s < HOUR
    ensures var t := Stamp(YEAR_BIAS + y, 1 + mo, 1 + d, h % 256, mi, s);
            && ((Valid(t) && Seconds(t) == sec) <==> sec < 255 * YEAR + 11 * MONTH + 31 * DAY)
            && Greedy(sec, t)
  {
    var t := Stamp(YEAR_BIAS + y, 1 + mo, 1 + d, h % 256, mi, s);
    assert mi <= 59;
    assert r3 == 60 * (60 * h + mi) + s;
    DivUnique(r3, 60, 60 * h + mi, s);
    DivUnique(60 * h + mi, 60, h, mi);
    DivUnique(r3, 3600, h, 60 * mi + s);
    assert Seconds(t) == sec - (h - h % 256) * HOUR;
    if h <= 23 {
      assert h % 256 == h;
      assert r3 < DAY;
    } else {
      assert r3 >= DAY;
      assert d == 30;
      assert r2 >= 31 * DAY;
      assert h % 256 <= h;
    }
  }
}
