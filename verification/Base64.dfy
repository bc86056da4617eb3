/** URL-safe base64 with its padding stripped for the wire and restored before decoding (section 5 of RFC 4648). */
module Base64 {
  import opened Util

  type Byte = b: int | 0 <= b < 256

  function Digit(k: int): (c: char)
    requires 0 <= k < 64
    ensures c != '='
  {
    if k < 26 then ('A' as int + k) as char
    else if k < 52 then ('a' as int + k - 26) as char
    else if k < 62 then ('0' as int + k - 52) as char
    else if k == 62 then '-' else '_'
  }

  function Value(c: char): Option<int> {
    if 'A' <= c <= 'Z' then Some(c as int - 'A' as int)
    else if 'a' <= c <= 'z' then Some(c as int - 'a' as int + 26)
    else if '0' <= c <= '9' then Some(c as int - '0' as int + 52)
    else if c == '-' then Some(62)
    else if c == '_' then Some(63)
    else None
  }

  lemma ValueOfDigit(k: int)
    requires 0 <= k < 64
    ensures Value(Digit(k)) == Some(k)
  {
  }

  function Quad(a: Byte, b: Byte, c: Byte): (q: string)
    ensures |q| == 4 && q[3] != '='
  {
    [Digit(a / 4), Digit(a % 4 * 16 + b / 16), Digit(b % 16 * 4 + c / 64), Digit(c % 64)]
  }

  function Encode(bs: seq<Byte>): string {
    if bs == [] then []
    else if |bs| == 1 then [Digit(bs[0] / 4), Digit(bs[0] % 4 * 16), '=', '=']
    else if |bs| == 2 then
      [Digit(bs[0] / 4), Digit(bs[0] % 4 * 16 + bs[1] / 16), Digit(bs[1] % 16 * 4), '=']
    else Quad(bs[0], bs[1], bs[2]) + Encode(bs[3..])
  }

  /** Nothing when the text is not base64. */
  function Decode(s: string): Option<seq<Byte>>
    decreases |s|
  {
    if s == [] then Some([])
    else if |s| < 4 then None
    else
      var a, b, c, d := Value(s[0]), Value(s[1]), Value(s[2]), Value(s[3]);
      if a.None? || b.None? then None
      else
        var first := a.value * 4 + b.value / 16;
        if !(0 <= first < 256) then None
        else if |s| == 4 && s[2] == '=' && s[3] == '=' then Some([first])
        else if c.None? then None
        else
          var second := b.value % 16 * 16 + c.value / 4;
          if !(0 <= second < 256) then None
          else if |s| == 4 && s[3] == '=' then Some([first, second])
          else if d.None? then None
          else
            var third := c.value % 4 * 64 + d.value;
            var rest := Decode(s[4..]);
            if !(0 <= third < 256) || rest.None? then None else Some([first, second, third] + rest.value)
  }

  lemma OneByte(a: Byte)
    ensures Decode([Digit(a / 4), Digit(a % 4 * 16), '=', '=']) == Some([a])
  {
    hide Value, Digit;
    ValueOfDigit(a / 4);
    ValueOfDigit(a % 4 * 16);
  }

  lemma TwoBytes(a: Byte, b: Byte)
    ensures Decode([Digit(a / 4), Digit(a % 4 * 16 + b / 16), Digit(b % 16 * 4), '=']) == Some([a, b])
  {
    hide Decode, Value, Digit;
    ValueOfDigit(a / 4);
    ValueOfDigit(a % 4 * 16 + b / 16);
    ValueOfDigit(b % 16 * 4);
    DecodeTwo(a, b, [Digit(a / 4), Digit(a % 4 * 16 + b / 16), Digit(b % 16 * 4), '=']);
  }

  lemma DecodeTwo(a: Byte, b: Byte, s: string)
    requires |s| == 4 && s[2] != '=' && s[3] == '='
    requires Value(s[0]) == Some(a / 4) && Value(s[1]) == Some(a % 4 * 16 + b / 16) && Value(s[2]) == Some(b % 16 * 4)
    ensures Decode(s) == Some([a, b])
  {
    hide Value;
    Recombines(a, b, 0);
  }

  /** The six-bit digits of three bytes recombine into those bytes. */
  lemma Recombines(a: Byte, b: Byte, c: Byte)
    ensures a / 4 * 4 + (a % 4 * 16 + b / 16) / 16 == a
    ensures (a % 4 * 16 + b / 16) % 16 * 16 + (b % 16 * 4 + c / 64) / 4 == b
    ensures (b % 16 * 4 + c / 64) % 4 * 64 + c % 64 == c
  {
  }

  lemma DecodeStep(a: Byte, b: Byte, c: Byte, s: string)
    requires |s| > 4 || (|s| == 4 && s[3] != '=')
    requires Value(s[0]) == Some(a / 4) && Value(s[1]) == Some(a % 4 * 16 + b / 16)
    requires Value(s[2]) == Some(b % 16 * 4 + c / 64) && Value(s[3]) == Some(c % 64)
    requires Decode(s[4..]).Some?
    ensures Decode(s) == Some([a, b, c] + Decode(s[4..]).value)
  {
    hide Value;
    Recombines(a, b, c);
  }

  lemma ThreeBytes(a: Byte, b: Byte, c: Byte, rest: string)
    requires Decode(rest).Some?
    ensures Decode(Quad(a, b, c) + rest) == Some([a, b, c] + Decode(rest).value)
  {
    hide Decode, Value, Digit;
    var s := Quad(a, b, c) + rest;
    ValueOfDigit(a / 4);
    ValueOfDigit(a % 4 * 16 + b / 16);
    ValueOfDigit(b % 16 * 4 + c / 64);
    ValueOfDigit(c % 64);
    assert s[4..] == rest;
    DecodeStep(a, b, c, s);
  }

  lemma {:induction false} DecodeOfEncode(bs: seq<Byte>)
    ensures Decode(Encode(bs)) == Some(bs)
    decreases |bs|
  {
    hide Decode, Quad, Digit;
    if bs == [] {
      DecodeOfNothing();
    } else if |bs| == 1 {
      OneByte(bs[0]);
      assert bs == [bs[0]];
    } else if |bs| == 2 {
      TwoBytes(bs[0], bs[1]);
      assert bs == [bs[0], bs[1]];
    } else {
      DecodeOfEncode(bs[3..]);
      ThreeBytes(bs[0], bs[1], bs[2], Encode(bs[3..]));
      assert bs == [bs[0], bs[1], bs[2]] + bs[3..];
    }
  }

  lemma DecodeOfNothing()
    ensures Decode([]) == Some([])
  {
  }

  // ---- Padding ----

  /** Python's `rstrip("=")`. */
  function StripPadding(s: string): string {
    if s != [] && s[|s| - 1] == '=' then StripPadding(s[..|s| - 1]) else s
  }

  function Padding(n: nat): string {
    if n == 0 then "" else Padding(n - 1) + "="
  }

  /** Python's `s + "=" * (-len(s) % 4)`. */
  function Repad(s: string): string {
    s + Padding((4 - |s| % 4) % 4)
  }

  lemma PaddingTexts()
    ensures Padding(0) == "" && Padding(1) == "=" && Padding(2) == "=="
  {
    assert Padding(2) == Padding(1) + "=";
  }

  lemma RepadPrepends(quad: string, tail: string)
    requires |quad| == 4
    ensures Repad(quad + tail) == quad + Repad(tail)
  {
  }

  /** An encoding is digits followed by the padding that its length calls for. */
  lemma {:induction false} EncodeShape(bs: seq<Byte>) returns (digits: string)
    ensures Encode(bs) == Repad(digits)
    ensures digits != [] ==> digits[|digits| - 1] != '='
    decreases |bs|
  {
    hide Quad, Digit;
    PaddingTexts();
    if bs == [] {
      digits := [];
    } else if |bs| == 1 {
      digits := [Digit(bs[0] / 4), Digit(bs[0] % 4 * 16)];
    } else if |bs| == 2 {
      digits := [Digit(bs[0] / 4), Digit(bs[0] % 4 * 16 + bs[1] / 16), Digit(bs[1] % 16 * 4)];
    } else {
      var tail := EncodeShape(bs[3..]);
      digits := Quad(bs[0], bs[1], bs[2]) + tail;
      RepadPrepends(Quad(bs[0], bs[1], bs[2]), tail);
    }
  }

  lemma {:induction false} StripsPadding(digits: string, n: nat)
    requires digits != [] ==> digits[|digits| - 1] != '='
    ensures StripPadding(digits + Padding(n)) == digits
  {
    if n == 0 {
      assert digits + Padding(0) == digits;
    } else {
      var s := digits + Padding(n);
      assert s[..|s| - 1] == digits + Padding(n - 1);
      StripsPadding(digits, n - 1);
    }
  }

  /** Stripping the padding loses nothing. */
  lemma RoundTrip(bs: seq<Byte>)
    ensures Decode(Repad(StripPadding(Encode(bs)))) == Some(bs)
  {
    var digits := EncodeShape(bs);
    StripsPadding(digits, (4 - |digits| % 4) % 4);
    DecodeOfEncode(bs);
  }

  // ---- What the text says ----

  /** Table 2 of RFC 4648: the value of a character, a pad counting as zero. */
  predicate Stands(c: char, k: int) {
    || ('A' <= c <= 'Z' && c as int - 'A' as int == k)
    || ('a' <= c <= 'z' && c as int - 'a' as int == k - 26)
    || ('0' <= c <= '9' && c as int - '0' as int == k - 52)
    || (c == '-' && k == 62)
    || (c == '_' && k == 63)
    || (c == '=' && k == 0)
  }

  /** The byte at `i`, or zero past the end. */
  function At(bs: seq<Byte>, i: nat): int {
    if i < |bs| then bs[i] else 0
  }

  /** Four characters and three bytes are one number, in base 64 and in base 256. */
  ghost predicate SameNumber(s: string, a: int, b: int, c: int) {
    && |s| == 4
    && exists i, j, k, l :: Stands(s[0], i) && Stands(s[1], j) && Stands(s[2], k) && Stands(s[3], l)
         && ((i * 64 + j) * 64 + k) * 64 + l == (a * 256 + b) * 256 + c
  }

  ghost predicate DigitsAre(s: string, i: int, j: int, k: int, l: int) {
    |s| == 4 && Stands(s[0], i) && Stands(s[1], j) && Stands(s[2], k) && Stands(s[3], l)
  }

  lemma DigitStands(k: int)
    requires 0 <= k < 64
    ensures Stands(Digit(k), k)
  {
  }

  lemma SextetsAdd(a: Byte, b: Byte, c: Byte)
    ensures ((a / 4 * 64 + (a % 4 * 16 + b / 16)) * 64 + (b % 16 * 4 + c / 64)) * 64 + c % 64 == (a * 256 + b) * 256 + c
  {
  }

  lemma QuadNumber(s: string, a: Byte, b: Byte, c: Byte)
    requires DigitsAre(s, a / 4, a % 4 * 16 + b / 16, b % 16 * 4 + c / 64, c % 64)
    ensures SameNumber(s, a, b, c)
  {
    hide Stands;
    SextetsAdd(a, b, c);
  }

  lemma FirstGroup(bs: seq<Byte>)
    requires bs != []
    ensures |Encode(bs)| >= 4 && SameNumber(Encode(bs)[..4], bs[0], At(bs, 1), At(bs, 2))
    ensures Encode(bs)[2] == '=' <==> |bs| < 2
    ensures Encode(bs)[3] == '=' <==> |bs| < 3
  {
    hide Digit, SameNumber;
    var a, b, c := bs[0], At(bs, 1), At(bs, 2);
    DigitStands(a / 4);
    DigitStands(a % 4 * 16 + b / 16);
    DigitStands(b % 16 * 4 + c / 64);
    DigitStands(c % 64);
    QuadNumber(Encode(bs)[..4], a, b, c);
  }

  /** Each group of four characters spells its three bytes as one number, and pads stand for missing bytes. */
  lemma {:induction false} EncodeSpells(bs: seq<Byte>, g: nat)
    requires 3 * g < |bs|
    ensures |Encode(bs)| == (|bs| + 2) / 3 * 4
    ensures SameNumber(Encode(bs)[4 * g..4 * g + 4], bs[3 * g], At(bs, 3 * g + 1), At(bs, 3 * g + 2))
    ensures Encode(bs)[4 * g + 2] == '=' <==> |bs| < 3 * g + 2
    ensures Encode(bs)[4 * g + 3] == '=' <==> |bs| < 3 * g + 3
    decreases |bs|
  {
    hide SameNumber, Digit, Quad;
    FirstGroup(bs);
    if |bs| > 3 {
      var rest := bs[3..];
      EncodeSpells(rest, if g > 0 then g - 1 else 0);
      if g > 0 {
        assert Encode(bs)[4 * g..4 * g + 4] == Encode(rest)[4 * (g - 1)..4 * (g - 1) + 4];
      }
    }
  }
}
