/** The two identifier producers of the page: the time-based identifier
    (seconds since the epoch in hexadecimal, then twelve random bytes) and
    the fallback random version-4 identifier built from a template. The
    clock and the random bytes are parameters. */
module GuidFormat {
  import opened Alphabet

  /** An element of a `Uint8Array`. */
  type byte = x: int | 0 <= x < 256

  /** `Option` for the result of a collaborator that may be missing. */
  datatype Option<T> = None | Some(value: T)

  /** The lower-case hexadecimal digit of value `d`, as `toString(16)` writes it. */
  function HexDigit(d: int): char
    requires 0 <= d < 16
  {
    if d < 10 then ('0' as int + d) as char else ('a' as int + d - 10) as char
  }

  /** `n.toString(16)`: hexadecimal, lower case, no leading zeros. */
  function ToHex(n: nat): string
    decreases n
  {
    if n < 16 then [HexDigit(n)] else ToHex(n / 16) + [HexDigit(n % 16)]
  }

  /** `k` zero digits. */
  function Zeros(k: nat): string {
    seq(k, _ => '0')
  }

  /** `s.padStart(width, "0")`. */
  function PadStart(s: string, width: nat): string {
    if |s| >= width then s else Zeros(width - |s|) + s
  }

  /** `toUpperCase` on one character, for the ASCII letters. */
  function UpperChar(c: char): char {
    if 'a' <= c <= 'z' then (c as int - 32) as char else c
  }

  /** `toUpperCase`, for the ASCII letters. */
  function ToUpper(s: string): string {
    seq(|s|, i requires 0 <= i < |s| => UpperChar(s[i]))
  }

  /** A lower-case hexadecimal digit. */
  predicate IsLowerHex(c: char) {
    ('0' <= c <= '9') || ('a' <= c <= 'f')
  }

  /** An upper-case hexadecimal digit: one of the first sixteen symbols of the
      alphabet. */
  predicate IsUpperHex(c: char) {
    ('0' <= c <= '9') || ('A' <= c <= 'F')
  }

  predicate AllLowerHex(s: string) {
    forall i :: 0 <= i < |s| ==> IsLowerHex(s[i])
  }

  /** The value of a hexadecimal digit of either case (0 for anything else). */
  function DigitValue(c: char): int {
    if '0' <= c <= '9' then c as int - '0' as int
    else if 'a' <= c <= 'f' then c as int - 'a' as int + 10
    else if 'A' <= c <= 'F' then c as int - 'A' as int + 10
    else 0
  }

  /** The number a string of hexadecimal digits stands for. */
  function ParseHex(s: string): int {
    if s == [] then 0 else ParseHex(s[..|s| - 1]) * 16 + DigitValue(s[|s| - 1])
  }

  /** `16^w`. */
  function Pow16(w: nat): nat {
    if w == 0 then 1 else 16 * Pow16(w - 1)
  }

  /** `toString(16)` writes at least one digit and only lower-case digits. */
  lemma {:induction false} ToHexDigits(n: nat)
    ensures |ToHex(n)| >= 1 && AllLowerHex(ToHex(n))
    decreases n
  {
    if n >= 16 {
      ToHexDigits(n / 16);
    }
  }

  /** Reading back what `toString(16)` wrote gives the number again. */
  lemma {:induction false} ToHexRoundTrip(n: nat)
    ensures ParseHex(ToHex(n)) == n
    decreases n
  {
    if n >= 16 {
      ToHexRoundTrip(n / 16);
      var s := ToHex(n);
      assert s[..|s| - 1] == ToHex(n / 16);
    }
  }

  /** A number below `16^w` takes at most `w` digits (for `w >= 1`). */
  lemma {:induction false} ToHexFits(n: nat, w: nat)
    requires w >= 1 && n < Pow16(w)
    ensures |ToHex(n)| <= w
    decreases n
  {
    if n >= 16 {
      assert w >= 2;
      assert n / 16 < Pow16(w - 1);
      ToHexFits(n / 16, w - 1);
    }
  }

  /** A number of at least `16^w` takes more than `w` digits. */
  lemma {:induction false} ToHexOverflows(n: nat, w: nat)
    requires n >= Pow16(w)
    ensures |ToHex(n)| > w
    decreases w
  {
    ToHexDigits(n);
    if w >= 1 {
      assert n >= 16 * Pow16(w - 1);
      assert n / 16 >= Pow16(w - 1);
      ToHexOverflows(n / 16, w - 1);
    }
  }

  /** Leading zeros do not change the number a hexadecimal string stands for. */
  lemma {:induction false} ParseHexZeros(k: nat, s: string)
    ensures ParseHex(Zeros(k) + s) == ParseHex(s)
    decreases |s|, k
  {
    if s == [] {
      assert Zeros(k) + s == Zeros(k);
      if k > 0 {
        assert Zeros(k)[..k - 1] == Zeros(k - 1);
        ParseHexZeros(k - 1, []);
        assert Zeros(k - 1) + [] == Zeros(k - 1);
      }
    } else {
      var t := Zeros(k) + s;
      assert t[..|t| - 1] == Zeros(k) + s[..|s| - 1];
      ParseHexZeros(k, s[..|s| - 1]);
    }
  }

  /** Upper-casing does not change the number a hexadecimal string stands for. */
  lemma {:induction false} ParseHexUpper(s: string)
    ensures ParseHex(ToUpper(s)) == ParseHex(s)
  {
    if s != [] {
      var u := ToUpper(s);
      assert u[..|u| - 1] == ToUpper(s[..|s| - 1]);
      ParseHexUpper(s[..|s| - 1]);
    }
  }

  /** Padding keeps the string's digits and makes it at least `width` long. */
  lemma PadStartDigits(s: string, width: nat)
    requires AllLowerHex(s)
    ensures |PadStart(s, width)| == if |s| >= width then |s| else width
    ensures AllLowerHex(PadStart(s, width))
    ensures ParseHex(PadStart(s, width)) == ParseHex(s)
  {
    if |s| < width {
      ParseHexZeros(width - |s|, s);
    }
  }

  /** `b.toString(16).padStart(2, "0")`: each byte becomes exactly two digits,
      which read back as the byte. */
  lemma ByteHex(b: byte)
    ensures |PadStart(ToHex(b), 2)| == 2
    ensures AllLowerHex(PadStart(ToHex(b), 2))
    ensures ParseHex(PadStart(ToHex(b), 2)) == b
  {
    ToHexDigits(b);
    ToHexFits(b, 2);
    ToHexRoundTrip(b);
    PadStartDigits(ToHex(b), 2);
  }

  /** The `rndHex` accumulation: each byte's two digits, in order. */
  function BytesHex(arr: seq<byte>): (r: string)
    ensures |r| == 2 * |arr|
  {
    if arr == [] then ""
    else
      ByteHex(arr[|arr| - 1]);
      BytesHex(arr[..|arr| - 1]) + PadStart(ToHex(arr[|arr| - 1]), 2)
  }

  /** Byte `i` sits at digits `2i` and `2i + 1` of `rndHex`. */
  lemma {:induction false} BytesHexAt(arr: seq<byte>, i: nat)
    requires i < |arr|
    ensures BytesHex(arr)[2 * i .. 2 * i + 2] == PadStart(ToHex(arr[i]), 2)
  {
    var init := arr[..|arr| - 1];
    if i < |arr| - 1 {
      BytesHexAt(init, i);
      assert BytesHex(arr)[..2 * |init|] == BytesHex(init);
    }
  }

  /** `rndHex` is made of lower-case hexadecimal digits. */
  lemma {:induction false} BytesHexDigits(arr: seq<byte>)
    ensures AllLowerHex(BytesHex(arr))
  {
    if arr != [] {
      BytesHexDigits(arr[..|arr| - 1]);
      ByteHex(arr[|arr| - 1]);
    }
  }

  /** The loop of `getTimeBasedGuid` that turns the twelve random bytes into
      24 digits, two per byte; each pair of digits reads back as its byte. */
  method RandomHex(arr: seq<byte>) returns (rndHex: string)
    requires |arr| == 12
    ensures rndHex == BytesHex(arr)
    ensures |rndHex| == 24 && AllLowerHex(rndHex)
    ensures forall i :: 0 <= i < 12 ==> ParseHex(rndHex[2 * i .. 2 * i + 2]) == arr[i]
  {
    rndHex := "";
    for i := 0 to 12
      invariant rndHex == BytesHex(arr[..i])
    {
      assert arr[..i + 1][..i] == arr[..i];
      rndHex := rndHex + PadStart(ToHex(arr[i]), 2);
    }
    assert arr[..12] == arr;
    BytesHexDigits(arr);
    forall i | 0 <= i < 12
      ensures ParseHex(rndHex[2 * i .. 2 * i + 2]) == arr[i]
    {
      BytesHexAt(arr, i);
      ByteHex(arr[i]);
    }
  }

  /** The template literal of `getTimeBasedGuid` before upper-casing:
      `secHex-part1-part2-part3-part4`. */
  function TimeGuidLower(secHex: string, rndHex: string): string
    requires |rndHex| == 24
  {
    secHex + "-" + rndHex[0..4] + "-" + rndHex[4..8] + "-" + rndHex[8..12] + "-" + rndHex[12..]
  }

  /** `getTimeBasedGuid` with the clock reading (in seconds) and the twelve
      random bytes as inputs. */
  function TimeGuid(secs: nat, arr: seq<byte>): string
    requires |arr| == 12
  {
    ToUpper(TimeGuidLower(PadStart(ToHex(secs), 8), BytesHex(arr)))
  }

  /** The dash positions of the 8-4-4-4-12 layout. */
  predicate IsDashPosition(i: int) {
    i == 8 || i == 13 || i == 18 || i == 23
  }

  /** The 8-4-4-4-12 layout: 36 characters, dashes at 8, 13, 18 and 23 and an
      upper-case hexadecimal digit everywhere else. */
  predicate IsGuidShape(g: string) {
    |g| == FlipCount &&
    forall i :: 0 <= i < |g| ==> if IsDashPosition(i) then g[i] == Dash else IsUpperHex(g[i])
  }

  /** Every character of a well-shaped identifier is a symbol of the board's
      alphabet, so every flip can be sent to it. */
  lemma GuidShapeInAlphabet(g: string)
    requires IsGuidShape(g)
    ensures forall i :: 0 <= i < |g| ==> InAlphabet(g[i])
  {
  }

  /** Upper-casing a string of lower-case digits and dashes. */
  lemma UpperShape(s: string)
    requires |s| == FlipCount
    requires forall i :: 0 <= i < |s| ==> if IsDashPosition(i) then s[i] == Dash else IsLowerHex(s[i])
    ensures IsGuidShape(ToUpper(s))
  {
  }

  /** Eight digits and 24 digits laid out as 8-4-4-4-12 with dashes between. */
  lemma TimeGuidLowerShape(secHex: string, rndHex: string)
    requires |secHex| == 8 && |rndHex| == 24 && AllLowerHex(secHex) && AllLowerHex(rndHex)
    ensures |TimeGuidLower(secHex, rndHex)| == FlipCount
    ensures forall i :: 0 <= i < FlipCount ==>
              if IsDashPosition(i) then TimeGuidLower(secHex, rndHex)[i] == Dash
              else IsLowerHex(TimeGuidLower(secHex, rndHex)[i])
  {
    var lower := TimeGuidLower(secHex, rndHex);
    forall i | 0 <= i < FlipCount
      ensures if IsDashPosition(i) then lower[i] == Dash else IsLowerHex(lower[i])
    {
      if i < 8 {
        assert lower[i] == secHex[i];
      } else if 8 < i < 13 {
        assert lower[i] == rndHex[i - 9];
      } else if 13 < i < 18 {
        assert lower[i] == rndHex[i - 10];
      } else if 18 < i < 23 {
        assert lower[i] == rndHex[i - 11];
      } else if 23 < i {
        assert lower[i] == rndHex[i - 12];
      }
    }
  }

  /** For a clock below `16^8` seconds the time-based identifier has the
      8-4-4-4-12 layout and its first eight digits read back as the seconds
      (`TimeGuidBytes` places the random bytes). */
  lemma TimeGuidShape(secs: nat, arr: seq<byte>)
    requires |arr| == 12 && secs < Pow16(8)
    ensures IsGuidShape(TimeGuid(secs, arr))
    ensures ParseHex(TimeGuid(secs, arr)[..8]) == secs
  {
    var secHex := PadStart(ToHex(secs), 8);
    var rndHex := BytesHex(arr);
    ToHexDigits(secs);
    ToHexFits(secs, 8);
    ToHexRoundTrip(secs);
    PadStartDigits(ToHex(secs), 8);
    BytesHexDigits(arr);
    var lower := TimeGuidLower(secHex, rndHex);
    TimeGuidLowerShape(secHex, rndHex);
    UpperShape(lower);
    assert lower[..8] == secHex;
    assert TimeGuid(secs, arr)[..8] == ToUpper(secHex);
    ParseHexUpper(secHex);
  }

  /** Where random digit `q` sits in the laid-out identifier: after the eight
      seconds digits and one dash per group boundary crossed. */
  function DigitPos(q: nat): nat {
    9 + q + (if q >= 4 then 1 else 0) + (if q >= 8 then 1 else 0) + (if q >= 12 then 1 else 0)
  }

  /** Random digit `q` sits at `DigitPos(q)` of the laid-out identifier. */
  lemma LowerDigitAt(secHex: string, rndHex: string, q: nat)
    requires |secHex| == 8 && |rndHex| == 24 && q < 24
    ensures |TimeGuidLower(secHex, rndHex)| == FlipCount
    ensures TimeGuidLower(secHex, rndHex)[DigitPos(q)] == rndHex[q]
  {
    var lower := TimeGuidLower(secHex, rndHex);
    if q < 4 {
      assert lower[9 + q] == rndHex[q];
    } else if q < 8 {
      assert lower[10 + q] == rndHex[q];
    } else if q < 12 {
      assert lower[11 + q] == rndHex[q];
    } else {
      assert lower[12 + q] == rndHex[q];
    }
  }

  /** Where byte `i` of the random bytes sits in a well-shaped time-based
      identifier: two digits each, in order, across the four dash-separated
      groups after the seconds (bytes 0-1, 2-3, 4-5 and 6-11). */
  function BytePos(i: nat): nat {
    9 + 2 * i + (if i >= 2 then 1 else 0) + (if i >= 4 then 1 else 0) + (if i >= 6 then 1 else 0)
  }

  /** The two digits of random byte `i` sit at `BytePos(i)` of the laid-out
      identifier. */
  lemma LowerBytesAt(secHex: string, rndHex: string, i: nat)
    requires |secHex| == 8 && |rndHex| == 24 && i < 12
    ensures |TimeGuidLower(secHex, rndHex)| == FlipCount
    ensures TimeGuidLower(secHex, rndHex)[BytePos(i) .. BytePos(i) + 2] == rndHex[2 * i .. 2 * i + 2]
  {
    LowerDigitAt(secHex, rndHex, 2 * i);
    LowerDigitAt(secHex, rndHex, 2 * i + 1);
    assert DigitPos(2 * i) == BytePos(i) && DigitPos(2 * i + 1) == BytePos(i) + 1;
  }

  /** Upper-casing commutes with taking a slice. */
  lemma UpperSlice(s: string, a: nat, b: nat)
    requires a <= b <= |s|
    ensures ToUpper(s)[a .. b] == ToUpper(s[a .. b])
  {
  }

  /** For a clock below `16^8` seconds, the two digits at `BytePos(i)` of the
      time-based identifier read back as random byte `i`. */
  lemma TimeGuidBytes(secs: nat, arr: seq<byte>, i: nat)
    requires |arr| == 12 && secs < Pow16(8) && i < 12
    ensures |TimeGuid(secs, arr)| == FlipCount
    ensures ParseHex(TimeGuid(secs, arr)[BytePos(i) .. BytePos(i) + 2]) == arr[i]
  {
    var secHex := PadStart(ToHex(secs), 8);
    var rndHex := BytesHex(arr);
    ToHexFits(secs, 8);
    ToHexDigits(secs);
    PadStartDigits(ToHex(secs), 8);
    var lower := TimeGuidLower(secHex, rndHex);
    var p := BytePos(i);
    LowerBytesAt(secHex, rndHex, i);
    assert TimeGuid(secs, arr) == ToUpper(lower);
    UpperSlice(lower, p, p + 2);
    ParseHexUpper(lower[p .. p + 2]);
    BytesHexAt(arr, i);
    ByteHex(arr[i]);
  }

  /** From `16^8` seconds on (the year 2106) the seconds take more than eight
      digits and the identifier is longer than the 36 flips. */
  lemma TimeGuidOverflow(secs: nat, arr: seq<byte>)
    requires |arr| == 12 && secs >= Pow16(8)
    ensures |TimeGuid(secs, arr)| > FlipCount
  {
    ToHexOverflows(secs, 8);
  }

  /** `getTimeBasedGuid`: `Date.now()` (milliseconds) and the bytes of
      `crypto.getRandomValues` are inputs. */
  method GetTimeBasedGuid(nowMs: nat, arr: seq<byte>) returns (guid: string)
    requires |arr| == 12
    ensures guid == TimeGuid(nowMs / 1000, arr)
    ensures nowMs / 1000 < Pow16(8) ==>
              IsGuidShape(guid) && ParseHex(guid[..8]) == nowMs / 1000
    ensures nowMs / 1000 < Pow16(8) ==>
              forall i :: 0 <= i < 12 ==> ParseHex(guid[BytePos(i) .. BytePos(i) + 2]) == arr[i]
  {
    var secHex := PadStart(ToHex(nowMs / 1000), 8);
    var rndHex := RandomHex(arr);
    var part1 := rndHex[0..4];
    var part2 := rndHex[4..8];
    var part3 := rndHex[8..12];
    var part4 := rndHex[12..];
    guid := ToUpper(secHex + "-" + part1 + "-" + part2 + "-" + part3 + "-" + part4);
    if nowMs / 1000 < Pow16(8) {
      TimeGuidShape(nowMs / 1000, arr);
      forall i | 0 <= i < 12
        ensures ParseHex(guid[BytePos(i) .. BytePos(i) + 2]) == arr[i]
      {
        TimeGuidBytes(nowMs / 1000, arr, i);
      }
    }
  }

  /** The fallback template, `[1e7] + -1e3 + -4e3 + -8e3 + -1e11`. */
  const Template: string := "10000000-1000-4000-8000-100000000000"

  /** The template, position by position: `1` at 0, 9 and 24, the version `4`
      at 14, the variant `8` at 19, dashes at 8, 13, 18, 23, `0` elsewhere. */
  lemma TemplateAt(i: nat)
    requires i < FlipCount
    ensures |Template| == FlipCount
    ensures Template[i] ==
              if IsDashPosition(i) then Dash
              else if i == 0 || i == 9 || i == 24 then '1'
              else if i == 14 then '4'
              else if i == 19 then '8'
              else '0'
  {
  }

  /** The characters the pattern `/[018]/g` replaces. */
  predicate Replaced(c: char) {
    c == '0' || c == '1' || c == '8'
  }

  /** `c ^ r & 15 >> c / 4`: the replaced character as a number, xor-ed with
      the random byte masked to four bits for `0` and `1` (`15 >> 0`) and to
      two bits for `8` (`15 >> 2`). */
  function Substitute(c: char, r: byte): (d: int)
    requires Replaced(c)
  {
    var cv := c as int - '0' as int;
    var mask := (15 as bv8) >> (cv / 4);
    ((cv as bv8) ^ ((r as bv8) & mask)) as int
  }

  /** A replaced `0` or `1` becomes any hexadecimal digit; a replaced `8`
      keeps its two high bits `10` and becomes one of 8, 9, 10, 11. */
  lemma SubstituteRange(c: char, r: byte)
    requires Replaced(c)
    ensures 0 <= Substitute(c, r) < 16
    ensures c == '8' ==> 8 <= Substitute(c, r) <= 11
  {
    var rb := r as bv8;
    if c == '8' {
      assert Substitute(c, r) == ((8 as bv8) ^ (rb & 3)) as int;
      assert (8 as bv8) ^ (rb & 3) == 8 + (rb & 3);
    } else {
      var cb: bv8 := if c == '0' then 0 else 1;
      assert Substitute(c, r) == (cb ^ (rb & 15)) as int;
      assert cb ^ (rb & 15) < 16;
    }
  }

  /** The `replace` callback applied to every character of a template, the
      random byte at the same position serving the replaced ones. */
  function ReplaceAll(tpl: string, rnd: seq<byte>): string
    requires |rnd| == |tpl|
  {
    if tpl == [] then []
    else
      var c := tpl[0];
      SubstituteRange(if Replaced(c) then c else '0', rnd[0]);
      [if Replaced(c) then HexDigit(Substitute(c, rnd[0])) else c] + ReplaceAll(tpl[1..], rnd[1..])
  }

  /** The replacement keeps the length and works position by position. */
  lemma {:induction false} ReplaceAllAt(tpl: string, rnd: seq<byte>, i: nat)
    requires |rnd| == |tpl| && i < |tpl|
    ensures |ReplaceAll(tpl, rnd)| == |tpl|
    ensures Replaced(tpl[i]) ==> 0 <= Substitute(tpl[i], rnd[i]) < 16
    ensures ReplaceAll(tpl, rnd)[i] ==
              if Replaced(tpl[i]) then HexDigit(Substitute(tpl[i], rnd[i])) else tpl[i]
  {
    if Replaced(tpl[i]) {
      SubstituteRange(tpl[i], rnd[i]);
    }
    if i > 0 {
      ReplaceAllAt(tpl[1..], rnd[1..], i - 1);
    } else if |tpl| > 1 {
      ReplaceAllAt(tpl[1..], rnd[1..], 0);
    }
  }

  /** The fallback of `getRandomV4Guid`, upper-cased; `rnd[i]` is the byte
      `crypto.getRandomValues` yields for template position `i`. */
  function V4Fallback(rnd: seq<byte>): string
    requires |rnd| == |Template|
  {
    ToUpper(ReplaceAll(Template, rnd))
  }

  /** `getRandomV4Guid`: the upper-cased `crypto.randomUUID()` when the
      platform has it, the template fallback otherwise. */
  function GetRandomV4Guid(native: Option<string>, rnd: seq<byte>): string
    requires |rnd| == |Template|
  {
    match native
    case Some(uuid) => ToUpper(uuid)
    case None => V4Fallback(rnd)
  }

  /** The fallback has the 8-4-4-4-12 layout of a version-4 identifier in the
      sense of RFC 4122 section 4.4: the version digit (position 14, section
      4.1.3) is `4`, the variant digit (position 19, section 4.1.1) has high
      bits `10`, so is one of `8`, `9`, `A`, `B`; only template positions
      holding `0`, `1` or `8` change. */
  lemma V4FallbackShape(rnd: seq<byte>)
    requires |rnd| == |Template|
    ensures IsGuidShape(V4Fallback(rnd))
    ensures V4Fallback(rnd)[14] == '4'
    ensures V4Fallback(rnd)[19] in "89AB"
    ensures forall i :: 0 <= i < |Template| && !Replaced(Template[i]) ==> V4Fallback(rnd)[i] == Template[i]
  {
    var lower := ReplaceAll(Template, rnd);
    TemplateAt(0);
    ReplaceAllAt(Template, rnd, 0);
    forall i | 0 <= i < FlipCount
      ensures if IsDashPosition(i) then lower[i] == Dash else IsLowerHex(lower[i])
      ensures !Replaced(Template[i]) ==> lower[i] == Template[i]
    {
      ReplacedAt(rnd, i);
    }
    UpperShape(lower);
    forall i | 0 <= i < FlipCount && !Replaced(Template[i])
      ensures V4Fallback(rnd)[i] == Template[i]
    {
      TemplateAt(i);
    }
    VariantDigit(rnd);
    ReplacedAt(rnd, 14);
  }

  /** One position of the replaced template, before upper-casing. */
  lemma ReplacedAt(rnd: seq<byte>, i: nat)
    requires |rnd| == |Template| && i < FlipCount
    ensures |ReplaceAll(Template, rnd)| == FlipCount
    ensures IsDashPosition(i) ==> ReplaceAll(Template, rnd)[i] == Dash
    ensures !IsDashPosition(i) ==> IsLowerHex(ReplaceAll(Template, rnd)[i])
    ensures !Replaced(Template[i]) ==> ReplaceAll(Template, rnd)[i] == Template[i]
    ensures i == 14 ==> ReplaceAll(Template, rnd)[i] == '4'
  {
    TemplateAt(i);
    ReplaceAllAt(Template, rnd, i);
  }

  /** The digits 8 to 11, as `toString(16)` writes them and upper-cased, are
      `8`, `9`, `A` and `B`. */
  lemma VariantChar(d: int)
    requires 8 <= d <= 11
    ensures UpperChar(HexDigit(d)) in "89AB"
  {
    if d == 8 {
      assert UpperChar(HexDigit(d)) == "89AB"[0];
    } else if d == 9 {
      assert UpperChar(HexDigit(d)) == "89AB"[1];
    } else if d == 10 {
      assert UpperChar(HexDigit(d)) == "89AB"[2];
    } else {
      assert UpperChar(HexDigit(d)) == "89AB"[3];
    }
  }

  /** The variant digit of the fallback is one of `8`, `9`, `A`, `B`. */
  lemma VariantDigit(rnd: seq<byte>)
    requires |rnd| == |Template|
    ensures |V4Fallback(rnd)| == FlipCount
    ensures V4Fallback(rnd)[19] in "89AB"
  {
    TemplateAt(19);
    ReplaceAllAt(Template, rnd, 19);
    SubstituteRange('8', rnd[19]);
    VariantChar(Substitute('8', rnd[19]));
  }


  /** Without the platform's `randomUUID` the identifier is the fallback and
      every character is a symbol of the board's alphabet. */
  lemma RandomGuidFallbackShape(rnd: seq<byte>)
    requires |rnd| == |Template|
    ensures IsGuidShape(GetRandomV4Guid(None, rnd))
    ensures forall i :: 0 <= i < FlipCount ==> InAlphabet(GetRandomV4Guid(None, rnd)[i])
  {
    V4FallbackShape(rnd);
    GuidShapeInAlphabet(V4Fallback(rnd));
  }

  /** The upper-case digits are the first sixteen symbols of the alphabet:
      upper-casing what `toString(16)` writes for `d` gives `charList[d]`. */
  lemma UpperHexIsSymbol(d: int)
    requires 0 <= d < 16
    ensures UpperChar(HexDigit(d)) == SymbolChar(d)
  {
  }
}
