/** The multibase text of a SHA-256 multihash (tensorcast/types.py): Base32 of
    section 6 of RFC 4648, case lowered and padding stripped, behind a "b". */
module Base32 {
  import opened Common

  type byte = bv8
  type digit = bv5

  // ----- one quantum: five bytes, forty bits, eight digits

  function Join(b0: byte, b1: byte, b2: byte, b3: byte, b4: byte): bv40 {
    (b0 as bv40 << 32) | (b1 as bv40 << 24) | (b2 as bv40 << 16) | (b3 as bv40 << 8) | (b4 as bv40)
  }

  function FromBytes(b: seq<byte>): bv40
    requires |b| == 5
  {
    Join(b[0], b[1], b[2], b[3], b[4])
  }

  function DigitAt(v: bv40, shift: bv6): digit
    requires shift <= 35
  {
    ((v >> shift) & 31) as digit
  }

  function ToDigits(v: bv40): (d: seq<digit>)
    ensures |d| == 8
  {
    [DigitAt(v, 35), DigitAt(v, 30), DigitAt(v, 25), DigitAt(v, 20),
     DigitAt(v, 15), DigitAt(v, 10), DigitAt(v, 5), DigitAt(v, 0)]
  }

  function FromDigits(d: seq<digit>): bv40
    requires |d| == 8
  {
    (d[0] as bv40 << 35) | (d[1] as bv40 << 30) | (d[2] as bv40 << 25) | (d[3] as bv40 << 20)
    | (d[4] as bv40 << 15) | (d[5] as bv40 << 10) | (d[6] as bv40 << 5) | (d[7] as bv40)
  }

  function ByteAt(v: bv40, shift: bv6): byte
    requires shift <= 32
  {
    ((v >> shift) & 255) as byte
  }

  function ToBytes(v: bv40): (b: seq<byte>)
    ensures |b| == 5
  {
    [ByteAt(v, 32), ByteAt(v, 24), ByteAt(v, 16), ByteAt(v, 8), ByteAt(v, 0)]
  }

  function Digits(b: seq<byte>): (d: seq<digit>)
    requires |b| == 5
    ensures |d| == 8
  {
    ToDigits(FromBytes(b))
  }

  function Bytes(d: seq<digit>): (b: seq<byte>)
    requires |d| == 8
    ensures |b| == 5
  {
    ToBytes(FromDigits(d))
  }

  lemma DigitsKeepBits(v: bv40)
    ensures FromDigits(ToDigits(v)) == v
  {
  }

  lemma JoinSplits(b0: byte, b1: byte, b2: byte, b3: byte, b4: byte)
    ensures var v := Join(b0, b1, b2, b3, b4);
            && ByteAt(v, 32) == b0 && ByteAt(v, 24) == b1 && ByteAt(v, 16) == b2
            && ByteAt(v, 8) == b3 && ByteAt(v, 0) == b4
  {
  }

  lemma BytesKeepBits(b: seq<byte>)
    requires |b| == 5
    ensures ToBytes(FromBytes(b)) == b
  {
    JoinSplits(b[0], b[1], b[2], b[3], b[4]);
    assert b == [b[0], b[1], b[2], b[3], b[4]];
  }

  lemma QuantumRoundTrip(b: seq<byte>)
    requires |b| == 5
    ensures Bytes(Digits(b)) == b
  {
    DigitsKeepBits(FromBytes(b));
    BytesKeepBits(b);
  }

  // ----- text

  const ALPHABET := "ABCDEFGHIJKLMNOPQRSTUVWXYZ234567"

  function UpperChar(d: digit): char {
    ALPHABET[d as int]
  }

  /** `str.lower()` on the characters that Base32 produces. */
  function LowerChar(c: char): char {
    if 'A' <= c <= 'Z' then c - 'A' + 'a' else c
  }

  function IndexOf(c: char): int {
    if 'a' <= c <= 'z' then (c - 'a') as int
    else if '2' <= c <= '7' then (c - '2') as int + 26
    else -1
  }

  function DigitOf(c: char): (d: Option<digit>) {
    if IndexOf(c) < 0 then None else Some(IndexOf(c) as digit)
  }

  lemma AlphabetRoundTrip(i: int)
    requires 0 <= i < 32
    ensures IndexOf(LowerChar(ALPHABET[i])) == i
    ensures LowerChar(ALPHABET[i]) != '='
  {
  }

  lemma CharRoundTrip(d: digit)
    ensures DigitOf(LowerChar(UpperChar(d))) == Some(d)
    ensures LowerChar(UpperChar(d)) != '='
  {
    AlphabetRoundTrip(d as int);
  }

  function Upper(d: seq<digit>): (s: string)
    ensures |s| == |d|
  {
    seq(|d|, i requires 0 <= i < |d| => UpperChar(d[i]))
  }

  function Lower(s: string): (r: string)
    ensures |r| == |s|
  {
    seq(|s|, i requires 0 <= i < |s| => LowerChar(s[i]))
  }

  function Repeat<T>(x: T, n: nat): (s: seq<T>)
    ensures |s| == n
  {
    seq(n, i => x)
  }

  /** Digits that carry the first `n` bytes of a quantum. */
  function DigitsFor(n: nat): nat
    requires n <= 5
  {
    if n == 0 then 0 else if n == 1 then 2 else if n == 2 then 4 else if n == 3 then 5 else if n == 4 then 7 else 8
  }

  function BytesFor(n: nat): (k: Option<nat>) {
    if n == 2 then Some(1) else if n == 4 then Some(2) else if n == 5 then Some(3)
    else if n == 7 then Some(4) else if n == 8 then Some(5) else None
  }

  /** `base64.b32encode`: every quantum, the last one filled with zero bytes and
      its unused characters replaced by "=". */
  function B32Encode(s: seq<byte>): string {
    if s == [] then ""
    else if |s| >= 5 then Upper(Digits(s[..5])) + B32Encode(s[5..])
    else Upper(Digits(s + Repeat(0, 5 - |s|)))[..DigitsFor(|s|)] + Repeat('=', 8 - DigitsFor(|s|))
  }

  function RStripPadding(s: string): string {
    if s != "" && s[|s| - 1] == '=' then RStripPadding(s[..|s| - 1]) else s
  }

  function Encode(s: seq<byte>): string {
    RStripPadding(Lower(B32Encode(s)))
  }

  /** The bytes carried by at most eight characters. */
  function DecodeQuantum(t: string): Option<seq<byte>>
    requires |t| <= 8
  {
    var d, k := ParseDigits(t), BytesFor(|t|);
    if d.None? || k.None? then None else Some(Bytes(d.value + Repeat(0, 8 - |t|))[..k.value])
  }

  /** Lower-case Base32 without padding, read back. */
  function Decode(t: string): Option<seq<byte>> {
    if t == "" then Some([])
    else
      var n := Min(8, |t|);
      var head, tail := DecodeQuantum(t[..n]), Decode(t[n..]);
      if head.None? || tail.None? then None else Some(head.value + tail.value)
  }

  function ParseDigits(t: string): (r: Option<seq<digit>>)
    ensures r.Some? ==> |r.value| == |t|
  {
    if t == "" then Some([])
    else
      var d, rest := DigitOf(t[0]), ParseDigits(t[1..]);
      if d.None? || rest.None? then None else Some([d.value] + rest.value)
  }

  /** The text without padding, quantum by quantum. */
  function Plain(s: seq<byte>): string {
    if s == [] then ""
    else if |s| >= 5 then Lower(Upper(Digits(s[..5]))) + Plain(s[5..])
    else Lower(Upper(Digits(s + Repeat(0, 5 - |s|)))[..DigitsFor(|s|)])
  }

  lemma {:induction false} PlainLength(s: seq<byte>)
    ensures |Plain(s)| == |s| / 5 * 8 + DigitsFor(|s| % 5)
  {
    if |s| >= 5 {
      PlainLength(s[5..]);
      assert |s| / 5 == |s[5..]| / 5 + 1 && |s| % 5 == |s[5..]| % 5;
    }
  }

  lemma {:induction false} StripRepeat(s: string, n: nat)
    requires s == "" || s[|s| - 1] != '='
    ensures RStripPadding(s + Repeat('=', n)) == s
  {
    if n == 0 {
      assert s + Repeat('=', 0) == s;
    } else {
      var t := s + Repeat('=', n);
      assert t[|t| - 1] == '=';
      assert t[..|t| - 1] == s + Repeat('=', n - 1);
      StripRepeat(s, n - 1);
    }
  }

  lemma {:induction false} PlainHasNoPadding(s: seq<byte>)
    ensures forall i | 0 <= i < |Plain(s)| :: Plain(s)[i] != '='
  {
    if |s| >= 5 {
      forall d: digit ensures LowerChar(UpperChar(d)) != '=' { CharRoundTrip(d); }
      PlainHasNoPadding(s[5..]);
    } else if s != [] {
      forall d: digit ensures LowerChar(UpperChar(d)) != '=' { CharRoundTrip(d); }
    }
  }

  /** Lowering and stripping remove exactly the padding. */
  lemma EncodeIsPlain(s: seq<byte>)
    ensures Encode(s) == Plain(s)
  {
    var n := LoweredIsPlainPlusPadding(s);
    PlainHasNoPadding(s);
    StripRepeat(Plain(s), n);
  }

  lemma {:induction false} LoweredIsPlainPlusPadding(s: seq<byte>) returns (n: nat)
    ensures Lower(B32Encode(s)) == Plain(s) + Repeat('=', n)
  {
    if s == [] {
      n := 0;
    } else if |s| >= 5 {
      n := LoweredIsPlainPlusPadding(s[5..]);
      var head, tail := Upper(Digits(s[..5])), B32Encode(s[5..]);
      LowerAppend(head, tail);
      AppendAssociates(Lower(head), Plain(s[5..]), Repeat('=', n));
    } else {
      n := 8 - DigitsFor(|s|);
      var head := Upper(Digits(s + Repeat(0, 5 - |s|)))[..DigitsFor(|s|)];
      LowerAppend(head, Repeat('=', n));
      assert Lower(Repeat('=', n)) == Repeat('=', n);
    }
  }

  lemma LowerAppend(a: string, b: string)
    ensures Lower(a + b) == Lower(a) + Lower(b)
  {
  }

  lemma AppendAssociates(a: string, b: string, c: string)
    ensures a + (b + c) == a + b + c
  {
  }

  lemma {:induction false} ParseRendered(d: seq<digit>)
    ensures ParseDigits(Lower(Upper(d))) == Some(d)
  {
    if d != [] {
      CharRoundTrip(d[0]);
      assert Lower(Upper(d))[1..] == Lower(Upper(d[1..]));
      assert Lower(Upper(d))[0] == LowerChar(UpperChar(d[0]));
      ParseRendered(d[1..]);
      assert d == [d[0]] + d[1..];
    }
  }

  /** Zero bytes at the end of a quantum leave zero digits at its end. */
  lemma TailDigitsAreZero(b: seq<byte>, d: seq<digit>, k: nat)
    requires |b| == 5 && 1 <= k <= 4 && d == Digits(b)
    requires forall i | k <= i < 5 :: b[i] == 0
    ensures d == d[..DigitsFor(k)] + Repeat(0, 8 - DigitsFor(k))
  {
    var v := FromBytes(b);
    assert b[4] == 0;
    if k == 1 {
      assert b[3] == 0 && b[2] == 0 && b[1] == 0 && v & 0xffff_ffff == 0;
      ClearBits(v);
    } else if k == 2 {
      assert b[3] == 0 && b[2] == 0 && v & 0xff_ffff == 0;
      ClearBits(v);
    } else if k == 3 {
      assert b[3] == 0 && v & 0xffff == 0;
      ClearBits(v);
    } else {
      assert v & 0xff == 0;
      ClearBits(v);
    }
  }

  lemma ClearBits(v: bv40)
    ensures v & 0xff == 0 ==> DigitAt(v, 0) == 0
    ensures v & 0xffff == 0 ==> DigitAt(v, 0) == DigitAt(v, 5) == DigitAt(v, 10) == 0
    ensures v & 0xff_ffff == 0 ==> DigitAt(v, 0) == DigitAt(v, 5) == DigitAt(v, 10) == DigitAt(v, 15) == 0
    ensures v & 0xffff_ffff == 0 ==>
              DigitAt(v, 0) == DigitAt(v, 5) == DigitAt(v, 10) == DigitAt(v, 15) == DigitAt(v, 20) == DigitAt(v, 25) == 0
  {
  }

  lemma DecodeRendered(d: seq<digit>, m: nat, k: nat, t: string)
    requires |d| == 8 && m <= 8 && t == Lower(Upper(d[..m])) && d[..m] + Repeat(0, 8 - m) == d
    requires BytesFor(m) == Some(k) && k <= 5
    ensures DecodeQuantum(t) == Some(Bytes(d)[..k])
  {
    ParseRendered(d[..m]);
  }

  /** A whole or partial quantum reads back. */
  lemma DecodeHead(head: seq<byte>, t: string)
    requires 1 <= |head| <= 5
    requires t == Lower(Upper(Digits(head + Repeat(0, 5 - |head|)))[..DigitsFor(|head|)])
    ensures DecodeQuantum(t) == Some(head)
  {
    var b := head + Repeat(0, 5 - |head|);
    var d, m := Digits(b), DigitsFor(|head|);
    assert d[..m] + Repeat(0, 8 - m) == d by {
      if |head| < 5 { TailDigitsAreZero(b, d, |head|); }
    }
    assert Bytes(d)[..|head|] == head by {
      QuantumRoundTrip(b);
      assert b[..|head|] == head;
    }
    DecodeRendered(d, m, |head|, t) by {
      assert Upper(d)[..m] == Upper(d[..m]);
    }
  }

  lemma {:induction false} DecodePlain(s: seq<byte>)
    ensures Decode(Plain(s)) == Some(s)
  {
    if |s| >= 5 {
      var head := s[..5];
      assert head + Repeat(0, 0) == head;
      assert Upper(Digits(head))[..8] == Upper(Digits(head));
      DecodeHead(head, Lower(Upper(Digits(head))));
      DecodePlain(s[5..]);
      assert Plain(s)[..8] == Lower(Upper(Digits(head))) && Plain(s)[8..] == Plain(s[5..]);
      assert head + s[5..] == s;
    } else if s != [] {
      DecodeHead(s, Plain(s));
      var m := |Plain(s)|;
      assert Plain(s)[..m] == Plain(s) && Plain(s)[m..] == "";
      assert s + [] == s;
    }
  }

  /** Base32 without padding reads back, for inputs of every length. */
  lemma Base32RoundTrip(s: seq<byte>)
    ensures Decode(Encode(s)) == Some(s)
    ensures |Encode(s)| == |s| / 5 * 8 + DigitsFor(|s| % 5)
  {
    EncodeIsPlain(s);
    PlainLength(s);
    DecodePlain(s);
  }

  // ----- the test vectors of section 10 of RFC 4648

  lemma RfcVectors()
    ensures B32Encode([0x66]) == "MY======"
    ensures B32Encode([0x66, 0x6f]) == "MZXQ===="
    ensures B32Encode([0x66, 0x6f, 0x6f]) == "MZXW6==="
    ensures B32Encode([0x66, 0x6f, 0x6f, 0x62]) == "MZXW6YQ="
    ensures B32Encode([0x66, 0x6f, 0x6f, 0x62, 0x61]) == "MZXW6YTB"
  {
    PartialVector([0x66], [12, 24, 0, 0, 0, 0, 0, 0], "MYAAAAAA");
    PartialVector([0x66, 0x6f], [12, 25, 23, 16, 0, 0, 0, 0], "MZXQAAAA");
    PartialVector([0x66, 0x6f, 0x6f], [12, 25, 23, 22, 30, 0, 0, 0], "MZXW6AAA");
    PartialVector([0x66, 0x6f, 0x6f, 0x62], [12, 25, 23, 22, 30, 24, 16, 0], "MZXW6YQA");
    FullQuantum([0x66, 0x6f, 0x6f, 0x62, 0x61]);
    assert Digits([0x66, 0x6f, 0x6f, 0x62, 0x61]) == [12, 25, 23, 22, 30, 24, 19, 1];
  }

  lemma FullQuantum(s: seq<byte>)
    requires |s| == 5
    ensures B32Encode(s) == Upper(Digits(s))
  {
    assert s[..5] == s && s[5..] == [];
    var head := Upper(Digits(s));
    assert head + "" == head;
  }

  lemma PartialVector(s: seq<byte>, d: seq<digit>, t: string)
    requires 1 <= |s| < 5 && |d| == |t| == 8
    requires Digits(s + Repeat(0, 5 - |s|)) == d && Upper(d) == t
    ensures B32Encode(s) == t[..DigitsFor(|s|)] + Repeat('=', 8 - DigitsFor(|s|))
  {
  }

  // ----- multihash

  function MultibaseMultihash(digest: seq<byte>): Result<string, string> {
    if |digest| != 32 then Err("SHA256 digest must be 32 bytes")
    else Ok("b" + Encode([0x12, 0x20] + digest))
  }

  function ParseMultihash(t: string): Option<seq<byte>> {
    if t == "" || t[0] != 'b' then None
    else
      var raw := Decode(t[1..]);
      if raw.Some? && |raw.value| == 34 && raw.value[0] == 0x12 && raw.value[1] == 0x20
      then Some(raw.value[2..]) else None
  }

  /** A 32-byte digest always gives 56 characters, from which it can be read back. */
  lemma MultihashRoundTrip(digest: seq<byte>)
    ensures MultibaseMultihash(digest).Ok? <==> |digest| == 32
    ensures |digest| == 32 ==> |MultibaseMultihash(digest).value| == 56
                               && ParseMultihash(MultibaseMultihash(digest).value) == Some(digest)
  {
    if |digest| == 32 {
      var raw: seq<byte> := [0x12, 0x20] + digest;
      Base32RoundTrip(raw);
      assert ("b" + Encode(raw))[1..] == Encode(raw);
      assert raw[2..] == digest;
    }
  }

  lemma MultihashIsInjective(a: seq<byte>, b: seq<byte>)
    requires |a| == 32 && MultibaseMultihash(a) == MultibaseMultihash(b)
    ensures a == b
  {
    MultihashRoundTrip(a);
    MultihashRoundTrip(b);
  }
}
