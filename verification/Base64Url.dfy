/**
  Unpadded base64url (src/mdreview/hosted/sessions.py, after section 5 of RFC 4648).  The decoder is
  Python's: it puts the padding back and then reads leniently, skipping characters outside the
  alphabet and stopping at the first complete padding.
 */
module Base64Url {
  import opened Common

  type Byte = b: int | 0 <= b < 256
  type Sextet = v: int | 0 <= v < 64

  function Char(v: Sextet): char {
    if v < 26 then 'A' + v as char
    else if v < 52 then 'a' + (v - 26) as char
    else if v < 62 then '0' + (v - 52) as char
    else if v == 62 then '-' else '_'
  }

  /** The value of a character; '+' and '/' are what '-' and '_' are translated to. */
  function Value(c: char): Option<Sextet> {
    if 'A' <= c <= 'Z' then Some((c - 'A') as int)
    else if 'a' <= c <= 'z' then Some((c - 'a') as int + 26)
    else if '0' <= c <= '9' then Some((c - '0') as int + 52)
    else if c == '-' || c == '+' then Some(62)
    else if c == '_' || c == '/' then Some(63)
    else None
  }

  function Quad(x: Byte, y: Byte, z: Byte): string {
    [Char(x / 4), Char(x % 4 * 16 + y / 16), Char(y % 16 * 4 + z / 64), Char(z % 64)]
  }

  /** urlsafe_b64encode, with its padding. */
  function Padded(raw: seq<Byte>): string {
    if |raw| == 0 then ""
    else if |raw| == 1 then [Char(raw[0] / 4), Char(raw[0] % 4 * 16), '=', '=']
    else if |raw| == 2 then [Char(raw[0] / 4), Char(raw[0] % 4 * 16 + raw[1] / 16), Char(raw[1] % 16 * 4), '=']
    else Quad(raw[0], raw[1], raw[2]) + Padded(raw[3..])
  }

  function StripRight(s: string): string {
    if s != "" && s[|s| - 1] == '=' then StripRight(s[..|s| - 1]) else s
  }

  /** b64url_encode */
  function Encode(raw: seq<Byte>): string {
    StripRight(Padded(raw))
  }

  /** What a decoder carries from one character to the next: its place in the group of four, the bits
      not yet written, and how many '=' it has just seen. */
  predicate Carry(pos: nat, left: nat) {
    (pos == 0 && left == 0) || (pos == 1 && left < 64) || (pos == 2 && left < 16) || (pos == 3 && left < 4)
  }

  function Prepend(b: Byte, rest: Option<seq<Byte>>): Option<seq<Byte>> {
    match rest
    case None => None
    case Some(bytes) => Some([b] + bytes)
  }

  /** a2b_base64, not strict. */
  function Scan(s: string, pos: nat, left: nat, pads: nat): Option<seq<Byte>>
    requires Carry(pos, left)
  {
    if s == "" then if pos == 0 then Some([]) else None
    else if s[0] == '=' then
      if pos >= 2 && pos + pads + 1 >= 4 then Some([])
      else Scan(s[1..], pos, left, if pos >= 2 then pads + 1 else pads)
    else
      match Value(s[0])
      case None => Scan(s[1..], pos, left, pads)
      case Some(v) =>
        if pos == 0 then Scan(s[1..], 1, v, 0)
        else if pos == 1 then Prepend(left * 4 + v / 16, Scan(s[1..], 2, v % 16, 0))
        else if pos == 2 then Prepend(left * 16 + v / 4, Scan(s[1..], 3, v % 4, 0))
        else Prepend(left * 64 + v, Scan(s[1..], 0, 0, 0))
  }

  /** "=" * (-n % 4) */
  function Padding(n: nat): string {
    seq((4 - n % 4) % 4, _ => '=')
  }

  /** b64url_decode; None stands for the ValueError. */
  function Decode(s: string): Option<seq<Byte>> {
    if exists k :: 0 <= k < |s| && s[k] > '\U{7F}' then None
    else Scan(s + Padding(|s|), 0, 0, 0)
  }

  // ----------------------------------------------------------------------------------------------
  // The round trip
  // ----------------------------------------------------------------------------------------------

  lemma CharHasValue(v: Sextet)
    ensures Value(Char(v)) == Some(v) && Char(v) != '=' && Char(v) != '.' && Char(v) <= '\U{7F}'
  {
  }

  lemma ScanFirst(x: Byte, t: string)
    ensures Scan([Char(x / 4)] + t, 0, 0, 0) == Scan(t, 1, x / 4, 0)
  {
    CharHasValue(x / 4);
    assert ([Char(x / 4)] + t)[1..] == t;
  }

  lemma ScanSecond(x: Byte, high: nat, t: string)
    requires high < 16
    ensures Scan([Char(x % 4 * 16 + high)] + t, 1, x / 4, 0) == Prepend(x, Scan(t, 2, high, 0))
  {
    var v: Sextet := x % 4 * 16 + high;
    CharHasValue(v);
    assert ([Char(v)] + t)[1..] == t;
    assert v / 16 == x % 4 && v % 16 == high && x / 4 * 4 + v / 16 == x;
  }

  lemma ScanThird(y: Byte, high: nat, t: string)
    requires high < 4
    ensures Scan([Char(y % 16 * 4 + high)] + t, 2, y / 16, 0) == Prepend(y, Scan(t, 3, high, 0))
  {
    var v: Sextet := y % 16 * 4 + high;
    CharHasValue(v);
    assert ([Char(v)] + t)[1..] == t;
    assert v / 4 == y % 16 && v % 4 == high && y / 16 * 16 + v / 4 == y;
  }

  lemma ScanFourth(z: Byte, t: string)
    ensures Scan([Char(z % 64)] + t, 3, z / 64, 0) == Prepend(z, Scan(t, 0, 0, 0))
  {
    CharHasValue(z % 64);
    assert ([Char(z % 64)] + t)[1..] == t;
  }

  lemma ScanOne(x: Byte)
    ensures Scan(Padded([x]), 0, 0, 0) == Some([x])
  {
    var second := [Char(x % 4 * 16)] + "==";
    ScanFirst(x, second);
    ScanSecond(x, 0, "==");
    assert Padded([x]) == [Char(x / 4)] + second;
    assert Scan("=="[1..], 2, 0, 1) == Some([]);
    assert Scan("==", 2, 0, 0) == Some([]) && [x] + [] == [x];
  }

  lemma ScanTwo(x: Byte, y: Byte)
    ensures Scan(Padded([x, y]), 0, 0, 0) == Some([x, y])
  {
    var third := [Char(y % 16 * 4)] + "=";
    var second := [Char(x % 4 * 16 + y / 16)] + third;
    ScanFirst(x, second);
    ScanSecond(x, y / 16, third);
    ScanThird(y, 0, "=");
    assert Padded([x, y]) == [Char(x / 4)] + second;
    assert Scan("=", 3, 0, 0) == Some([]);
    assert [x] + ([y] + []) == [x, y];
  }

  lemma ScanQuad(x: Byte, y: Byte, z: Byte, rest: string)
    ensures Scan(Quad(x, y, z) + rest, 0, 0, 0) == Prepend(x, Prepend(y, Prepend(z, Scan(rest, 0, 0, 0))))
  {
    var fourth := [Char(z % 64)] + rest;
    var third := [Char(y % 16 * 4 + z / 64)] + fourth;
    var second := [Char(x % 4 * 16 + y / 16)] + third;
    ScanFirst(x, second);
    ScanSecond(x, y / 16, third);
    ScanThird(y, z / 64, fourth);
    ScanFourth(z, rest);
    assert Quad(x, y, z) + rest == [Char(x / 4)] + second;
  }

  lemma {:induction false} ScanPadded(raw: seq<Byte>)
    ensures Scan(Padded(raw), 0, 0, 0) == Some(raw)
  {
    if |raw| == 1 {
      ScanOne(raw[0]);
      assert raw == [raw[0]];
    } else if |raw| == 2 {
      ScanTwo(raw[0], raw[1]);
      assert raw == [raw[0], raw[1]];
    } else if |raw| > 2 {
      ScanPadded(raw[3..]);
      ScanQuad(raw[0], raw[1], raw[2], Padded(raw[3..]));
      assert [raw[0]] + ([raw[1]] + ([raw[2]] + raw[3..])) == raw;
    }
  }

  lemma {:induction false} StripAppend(s: string, t: string)
    requires s != "" && s[|s| - 1] != '='
    ensures StripRight(s + t) == s + StripRight(t)
  {
    if t == "" {
      assert s + t == s;
    } else if t[|t| - 1] == '=' {
      assert (s + t)[..|s + t| - 1] == s + t[..|t| - 1];
      StripAppend(s, t[..|t| - 1]);
    }
  }

  lemma QuadIsData(x: Byte, y: Byte, z: Byte)
    ensures forall c :: c in Quad(x, y, z) ==> Value(c).Some? && c != '=' && c != '.' && c <= '\U{7F}' && c != '+' && c != '/'
    ensures |Quad(x, y, z)| == 4
  {
    CharHasValue(x / 4);
    CharHasValue(x % 4 * 16 + y / 16);
    CharHasValue(y % 16 * 4 + z / 64);
    CharHasValue(z % 64);
  }

  lemma EncodeStep(raw: seq<Byte>)
    requires |raw| > 2
    ensures Encode(raw) == Quad(raw[0], raw[1], raw[2]) + Encode(raw[3..])
  {
    QuadIsData(raw[0], raw[1], raw[2]);
    StripAppend(Quad(raw[0], raw[1], raw[2]), Padded(raw[3..]));
  }

  lemma EncodeOne(raw: seq<Byte>)
    requires |raw| == 1
    ensures Encode(raw) == [Char(raw[0] / 4), Char(raw[0] % 4 * 16)]
  {
    var s := Padded(raw);
    CharHasValue(raw[0] % 4 * 16);
    assert s[..3][..2] == [Char(raw[0] / 4), Char(raw[0] % 4 * 16)];
    assert StripRight(s) == StripRight(s[..3]) == StripRight(s[..3][..2]);
  }

  lemma EncodeTwo(raw: seq<Byte>)
    requires |raw| == 2
    ensures Encode(raw) == [Char(raw[0] / 4), Char(raw[0] % 4 * 16 + raw[1] / 16), Char(raw[1] % 16 * 4)]
  {
    var s := Padded(raw);
    CharHasValue(raw[1] % 16 * 4);
    assert s[..3] == [Char(raw[0] / 4), Char(raw[0] % 4 * 16 + raw[1] / 16), Char(raw[1] % 16 * 4)];
    assert StripRight(s) == StripRight(s[..3]);
  }

  /** What an encoding looks like: no padding, only letters, digits, '-' and '_', and as short as the
      data allows. */
  predicate Plain(s: string) {
    forall k :: 0 <= k < |s| ==> Value(s[k]).Some? && s[k] != '=' && s[k] != '.' && s[k] <= '\U{7F}' && s[k] != '+' && s[k] != '/'
  }

  lemma {:induction false} EncodingIsPlain(raw: seq<Byte>)
    ensures Plain(Encode(raw)) && |Encode(raw)| == (4 * |raw| + 2) / 3
  {
    if |raw| == 1 {
      EncodeOne(raw);
      CharHasValue(raw[0] / 4);
      CharHasValue(raw[0] % 4 * 16);
    } else if |raw| == 2 {
      EncodeTwo(raw);
      CharHasValue(raw[0] / 4);
      CharHasValue(raw[0] % 4 * 16 + raw[1] / 16);
      CharHasValue(raw[1] % 16 * 4);
    } else if |raw| > 2 {
      EncodingIsPlain(raw[3..]);
      EncodeStep(raw);
      QuadIsData(raw[0], raw[1], raw[2]);
      var q := Quad(raw[0], raw[1], raw[2]);
      assert forall k :: 0 <= k < 4 ==> q[k] in q;
    }
  }

  /** Table 2 of RFC 4648: the capitals, the small letters, the digits, then '-' and '_'. */
  lemma CharIsTable2(v: Sextet)
    ensures Char(0) == 'A' && Char(25) == 'Z' && Char(26) == 'a' && Char(51) == 'z' && Char(52) == '0' && Char(61) == '9'
    ensures Char(62) == '-' && Char(63) == '_'
    ensures v !in {25, 51, 61, 62, 63} ==> Char(v + 1) as int == Char(v) as int + 1
  {
  }

  /** The bytes as one number, the first byte in the highest place. */
  function Bytes(raw: seq<Byte>): nat {
    if raw == [] then 0 else Bytes(raw[..|raw| - 1]) * 256 + raw[|raw| - 1]
  }

  /** The characters as one number, by their places in the alphabet. */
  function Digits(s: string): nat {
    if s == "" then 0 else Digits(s[..|s| - 1]) * 64 + (match Value(s[|s| - 1]) case Some(v) => v case None => 0)
  }

  /** What the encoding is: three bytes are four characters for the same number, group by group, and one or
      two bytes at the end are two or three characters for theirs, filled up with zero bits. */
  lemma EncodingIsTheNumber(raw: seq<Byte>)
    ensures |raw| >= 3 ==> |Encode(raw)| >= 4 && Digits(Encode(raw)[..4]) == Bytes(raw[..3]) && Encode(raw)[4..] == Encode(raw[3..])
    ensures |raw| == 2 ==> |Encode(raw)| == 3 && Digits(Encode(raw)) == Bytes(raw) * 4
    ensures |raw| == 1 ==> |Encode(raw)| == 2 && Digits(Encode(raw)) == Bytes(raw) * 16
    ensures |raw| == 0 ==> Encode(raw) == ""
  {
    if |raw| == 1 {
      OneIsTheNumber(raw);
    } else if |raw| == 2 {
      TwoIsTheNumber(raw);
    } else if |raw| >= 3 {
      EncodeStep(raw);
      QuadIsTheNumber(raw[0], raw[1], raw[2]);
      assert raw[..3] == [raw[0], raw[1], raw[2]];
      assert Encode(raw)[..4] == Quad(raw[0], raw[1], raw[2]);
    }
  }

  lemma OneIsTheNumber(raw: seq<Byte>)
    requires |raw| == 1
    ensures |Encode(raw)| == 2 && Digits(Encode(raw)) == Bytes(raw) * 16
  {
    EncodeOne(raw);
    CharHasValue(raw[0] / 4);
    CharHasValue(raw[0] % 4 * 16);
    TwoDigits(Char(raw[0] / 4), Char(raw[0] % 4 * 16));
    assert raw[..0] == [];
  }

  lemma TwoIsTheNumber(raw: seq<Byte>)
    requires |raw| == 2
    ensures |Encode(raw)| == 3 && Digits(Encode(raw)) == Bytes(raw) * 4
  {
    EncodeTwo(raw);
    CharHasValue(raw[0] / 4);
    CharHasValue(raw[0] % 4 * 16 + raw[1] / 16);
    CharHasValue(raw[1] % 16 * 4);
    TwoDigits(Char(raw[0] / 4), Char(raw[0] % 4 * 16 + raw[1] / 16));
    ThreeDigits(Char(raw[0] / 4), Char(raw[0] % 4 * 16 + raw[1] / 16), Char(raw[1] % 16 * 4));
    TwoBytes(raw[0], raw[1]);
    assert raw == [raw[0], raw[1]];
  }

  lemma TwoBytes(x: Byte, y: Byte)
    ensures Bytes([x, y]) == 256 * (x as int) + (y as int)
  {
    var one: seq<Byte> := [x];
    assert one[..0] == [] && Bytes(one) == x;
    assert (one + [y])[..1] == one && one + [y] == [x, y];
  }

  lemma TwoDigits(a: char, b: char)
    requires Value(a).Some? && Value(b).Some?
    ensures Digits([a, b]) == 64 * (Value(a).value as int) + (Value(b).value as int)
  {
    assert [a, b][..1] == [a] && [a][..0] == "" && Digits("") == 0;
  }

  lemma ThreeDigits(a: char, b: char, c: char)
    requires Value(a).Some? && Value(b).Some? && Value(c).Some?
    ensures Digits([a, b, c]) == 64 * Digits([a, b]) + (Value(c).value as int)
  {
    assert [a, b, c][..2] == [a, b];
  }

  lemma QuadIsTheNumber(x: Byte, y: Byte, z: Byte)
    ensures Digits(Quad(x, y, z)) == Bytes([x, y, z])
  {
    var q := Quad(x, y, z);
    CharHasValue(x / 4);
    CharHasValue(x % 4 * 16 + y / 16);
    CharHasValue(y % 16 * 4 + z / 64);
    CharHasValue(z % 64);
    TwoDigits(q[0], q[1]);
    ThreeDigits(q[0], q[1], q[2]);
    assert q[..3] == [q[0], q[1], q[2]];
    TwoBytes(x, y);
    assert [x, y, z][..2] == [x, y];
  }

  lemma PaddingPeriod(n: nat)
    ensures Padding(n + 4) == Padding(n)
  {
  }

  /** The decoder puts back exactly the padding the encoder took away. */
  lemma {:induction false} PaddingIsRestored(raw: seq<Byte>)
    ensures Encode(raw) + Padding(|Encode(raw)|) == Padded(raw)
  {
    if |raw| == 1 {
      EncodeOne(raw);
    } else if |raw| == 2 {
      EncodeTwo(raw);
    } else if |raw| > 2 {
      PaddingIsRestored(raw[3..]);
      EncodeStep(raw);
      var q, e := Quad(raw[0], raw[1], raw[2]), Encode(raw[3..]);
      PaddingPeriod(|e|);
      assert |q + e| == |e| + 4;
      assert (q + e) + Padding(|e|) == q + (e + Padding(|e|));
    }
  }

  /** Round trip, for every byte string. */
  lemma DecodeEncode(raw: seq<Byte>)
    ensures Decode(Encode(raw)) == Some(raw)
  {
    EncodingIsPlain(raw);
    PaddingIsRestored(raw);
    ScanPadded(raw);
  }
}
