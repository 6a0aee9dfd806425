/** Hexadecimal and address text, byte order reversal, and the in-place loops that compute them. */
module HexCodec {
  import opened Bgapi

  predicate IsHexDigit(c: char) {
    '0' <= c <= '9' || 'a' <= c <= 'f' || 'A' <= c <= 'F'
  }

  predicate IsHexText(s: string) {
    |s| % 2 == 0 && forall i {:trigger IsHexDigit(s[i])} :: 0 <= i < |s| ==> IsHexDigit(s[i])
  }

  function DigitOf(n: nat): (c: char)
    requires n < 16
    ensures IsHexDigit(c)
  {
    if n < 10 then (n + '0' as int) as char else (n - 10 + 'a' as int) as char
  }

  function ValueOf(c: char): (n: nat)
    requires IsHexDigit(c)
    ensures n < 16
  {
    if '0' <= c <= '9' then c as int - '0' as int
    else if 'a' <= c <= 'f' then c as int - 'a' as int + 10
    else c as int - 'A' as int + 10
  }

  function Lower(c: char): char {
    if 'A' <= c <= 'F' then (c as int - 'A' as int + 'a' as int) as char else c
  }

  function LowerAll(s: string): (t: string)
    ensures |t| == |s|
  {
    seq(|s|, i requires 0 <= i < |s| => Lower(s[i]))
  }

  /** "%02x" */
  function Print2(b: Byte): (s: string)
    ensures |s| == 2 && IsHexDigit(s[0]) && IsHexDigit(s[1])
  {
    [DigitOf(b / 16), DigitOf(b % 16)]
  }

  /** What sscanf with "%02x" stores for two hexadecimal digits. */
  function Scan2(hi: char, lo: char): Byte
    requires IsHexDigit(hi) && IsHexDigit(lo)
  {
    16 * ValueOf(hi) + ValueOf(lo)
  }

  function ToHex(bytes: seq<Byte>): (s: string)
    ensures |s| == 2 * |bytes| && IsHexText(s)
  {
    if bytes == [] then "" else ToHex(bytes[..|bytes| - 1]) + Print2(bytes[|bytes| - 1])
  }

  function FromHex(s: string): (bytes: seq<Byte>)
    requires IsHexText(s)
    ensures 2 * |bytes| == |s|
  {
    if s == "" then [] else FromHex(s[..|s| - 2]) + [Scan2(s[|s| - 2], s[|s| - 1])]
  }

  lemma {:induction false} FromHexAt(s: string, i: nat)
    requires IsHexText(s) && i < |s| / 2
    ensures FromHex(s)[i] == Scan2(s[2 * i], s[2 * i + 1])
    decreases |s|
  {
    if i < |s| / 2 - 1 {
      FromHexAt(s[..|s| - 2], i);
    }
  }

  lemma {:induction false} ToHexAt(bytes: seq<Byte>, i: nat)
    requires i < |bytes|
    ensures ToHex(bytes)[2 * i..2 * i + 2] == Print2(bytes[i])
    decreases |bytes|
  {
    var front := bytes[..|bytes| - 1];
    if i < |front| {
      ToHexAt(front, i);
      assert ToHex(bytes)[..2 * |front|] == ToHex(front);
      assert ToHex(bytes)[2 * i..2 * i + 2] == ToHex(front)[2 * i..2 * i + 2];
    }
  }

  /** The digits are the sixteen characters in order, and either case of a letter has its value. */
  lemma {:induction false} DigitsAre(n: nat)
    requires n < 16
    ensures DigitOf(n) == "0123456789abcdef"[n]
    ensures ValueOf("0123456789abcdef"[n]) == n && ValueOf("0123456789ABCDEF"[n]) == n
  {
  }

  lemma {:induction false} ByteRoundTrip(b: Byte)
    ensures Scan2(Print2(b)[0], Print2(b)[1]) == b
  {
  }

  lemma {:induction false} DigitsRoundTrip(hi: char, lo: char)
    requires IsHexDigit(hi) && IsHexDigit(lo)
    ensures Print2(Scan2(hi, lo)) == [Lower(hi), Lower(lo)]
  {
    var b := Scan2(hi, lo);
    assert b / 16 == ValueOf(hi) && b % 16 == ValueOf(lo);
  }

  lemma {:induction false} ToHexSnoc(bytes: seq<Byte>, b: Byte)
    ensures ToHex(bytes + [b]) == ToHex(bytes) + Print2(b)
  {
    assert (bytes + [b])[..|bytes|] == bytes;
  }

  lemma {:induction false} ByteAt(bytes: seq<Byte>, i: nat)
    requires i < |bytes|
    ensures FromHex(ToHex(bytes))[i] == bytes[i]
  {
    var text := ToHex(bytes);
    FromHexAt(text, i);
    ToHexAt(bytes, i);
    assert text[2 * i..2 * i + 2][0] == text[2 * i] && text[2 * i..2 * i + 2][1] == text[2 * i + 1];
    ByteRoundTrip(bytes[i]);
  }

  /** hex2str then str2array gives the bytes back. */
  lemma {:induction false} HexRoundTrip(bytes: seq<Byte>)
    ensures FromHex(ToHex(bytes)) == bytes
  {
    forall i: nat | i < |bytes| ensures FromHex(ToHex(bytes))[i] == bytes[i] {
      ByteAt(bytes, i);
    }
  }

  lemma {:induction false} DigitAt(s: string, k: nat)
    requires IsHexText(s) && k < |s|
    ensures ToHex(FromHex(s))[k] == Lower(s[k])
  {
    var i, text := k / 2, ToHex(FromHex(s));
    ToHexAt(FromHex(s), i);
    FromHexAt(s, i);
    DigitsRoundTrip(s[2 * i], s[2 * i + 1]);
    assert text[2 * i..2 * i + 2][k - 2 * i] == text[k];
  }

  /** str2array then hex2str gives the text back in lower case. */
  lemma {:induction false} TextRoundTrip(s: string)
    requires IsHexText(s)
    ensures ToHex(FromHex(s)) == LowerAll(s)
  {
    forall k: nat | k < |s| ensures ToHex(FromHex(s))[k] == LowerAll(s)[k] {
      DigitAt(s, k);
    }
  }

  lemma {:induction false} HexIsInjective(a: seq<Byte>, b: seq<Byte>)
    requires ToHex(a) == ToHex(b)
    ensures a == b
  {
    HexRoundTrip(a);
    HexRoundTrip(b);
  }

  lemma {:induction false} ToHexConcat(a: seq<Byte>, b: seq<Byte>)
    ensures ToHex(a + b) == ToHex(a) + ToHex(b)
    decreases |b|
  {
    if b == [] {
      assert a + b == a;
    } else {
      assert (a + b)[..|a + b| - 1] == a + b[..|b| - 1];
      ToHexConcat(a, b[..|b| - 1]);
    }
  }

  lemma {:induction false} FromHexConcat(s: string, t: string)
    requires IsHexText(s) && IsHexText(t)
    ensures IsHexText(s + t)
    ensures FromHex(s + t) == FromHex(s) + FromHex(t)
  {
    JoinedIsHex(s, t);
    forall i: nat | i < |s + t| / 2 ensures FromHex(s + t)[i] == (FromHex(s) + FromHex(t))[i] {
      FromHexAt(s + t, i);
      if 2 * i < |s| {
        FromHexAt(s, i);
      } else {
        FromHexAt(t, i - |s| / 2);
      }
    }
  }

  lemma {:induction false} JoinedIsHex(s: string, t: string)
    requires IsHexText(s) && IsHexText(t)
    ensures IsHexText(s + t)
  {
    forall i | 0 <= i < |s + t| ensures IsHexDigit((s + t)[i]) {
      assert if i < |s| then IsHexDigit(s[i]) else IsHexDigit(t[i - |s|]);
    }
  }

  method Str2Array(dst: array<Byte>, src: string)
    requires IsHexText(src) && dst.Length == |src| / 2
    modifies dst
    ensures dst[..] == FromHex(src)
  {
    for i := 0 to dst.Length
      invariant forall j :: 0 <= j < i ==> dst[j] == FromHex(src)[j]
    {
      FromHexAt(src, i);
      dst[i] := Scan2(src[2 * i], src[2 * i + 1]);
    }
  }

  method Hex2Str(head: seq<Byte>, value: array<char>)
    requires value.Length == 2 * |head|
    modifies value
    ensures value[..] == ToHex(head)
  {
    for i := 0 to |head|
      invariant value[..2 * i] == ToHex(head[..i])
    {
      var digits := Print2(head[i]);
      value[2 * i], value[2 * i + 1] := digits[0], digits[1];
      assert head[..i + 1][..i] == head[..i];
      assert value[..2 * (i + 1)] == value[..2 * i] + digits;
    }
    assert head[..|head|] == head;
    assert value[..2 * |head|] == value[..];
  }

  // Addresses: six bytes, kept in reverse order, printed highest first with colons.

  const MAC_LEN := 6

  type Mac = a: seq<Byte> | |a| == MAC_LEN witness [0, 0, 0, 0, 0, 0]

  function AddrToStr(a: Mac): (s: string)
    ensures |s| == 17 && IsAddress(s)
  {
    var p0, p1, p2, p3, p4, p5 := Print2(a[0]), Print2(a[1]), Print2(a[2]), Print2(a[3]), Print2(a[4]), Print2(a[5]);
    [p5[0], p5[1], ':', p4[0], p4[1], ':', p3[0], p3[1], ':', p2[0], p2[1], ':', p1[0], p1[1], ':', p0[0], p0[1]]
  }

  predicate IsPairAt(s: string, i: nat)
    requires i + 1 < |s|
  {
    IsHexDigit(s[i]) && IsHexDigit(s[i + 1])
  }

  /** Text of the shape that addr2str prints. */
  predicate IsAddress(s: string) {
    && |s| == 17
    && s[2] == s[5] == s[8] == s[11] == s[14] == ':'
    && IsPairAt(s, 0) && IsPairAt(s, 3) && IsPairAt(s, 6) && IsPairAt(s, 9) && IsPairAt(s, 12) && IsPairAt(s, 15)
  }

  function StrToAddr(s: string): Mac
    requires IsAddress(s)
  {
    [Scan2(s[15], s[16]), Scan2(s[12], s[13]), Scan2(s[9], s[10]), Scan2(s[6], s[7]), Scan2(s[3], s[4]),
     Scan2(s[0], s[1])]
  }

  /** addr2str then str2addr is the identity, so two addresses with the same text are the same. */
  lemma {:induction false} AddressRoundTrip(a: Mac)
    ensures IsAddress(AddrToStr(a))
    ensures StrToAddr(AddrToStr(a)) == a
  {
    ByteRoundTrip(a[0]);
    ByteRoundTrip(a[1]);
    ByteRoundTrip(a[2]);
    ByteRoundTrip(a[3]);
    ByteRoundTrip(a[4]);
    ByteRoundTrip(a[5]);
    assert a == [a[0], a[1], a[2], a[3], a[4], a[5]];
  }

  lemma {:induction false} PairAt(a: Mac, k: nat)
    requires k < MAC_LEN
    ensures AddrToStr(a)[3 * k] == Print2(a[5 - k])[0] && AddrToStr(a)[3 * k + 1] == Print2(a[5 - k])[1]
    ensures k < 5 ==> AddrToStr(a)[3 * k + 2] == ':'
  {
  }

  /** Character by character: six pairs of digits, the last byte first, the high digit first, with colons between. */
  lemma {:induction false} AddressText(a: Mac, k: nat)
    requires k < MAC_LEN
    ensures AddrToStr(a)[3 * k] == "0123456789abcdef"[a[5 - k] / 16]
    ensures AddrToStr(a)[3 * k + 1] == "0123456789abcdef"[a[5 - k] % 16]
    ensures k < 5 ==> AddrToStr(a)[3 * k + 2] == ':'
  {
    DigitsAre(a[5 - k] / 16);
    DigitsAre(a[5 - k] % 16);
    PairAt(a, k);
  }

  // Byte order.

  function Reversed(s: seq<Byte>): (r: seq<Byte>)
    ensures |r| == |s|
  {
    seq(|s|, i requires 0 <= i < |s| => s[|s| - 1 - i])
  }

  method ReverseEndian(header: array<Byte>)
    modifies header
    ensures header[..] == Reversed(old(header[..]))
  {
    var tmp := header[..];
    var i, j := header.Length - 1, 0;
    while i >= 0
      invariant -1 <= i < header.Length && j == header.Length - 1 - i
      invariant forall k :: 0 <= k < j ==> header[k] == tmp[|tmp| - 1 - k]
    {
      header[j] := tmp[i];
      i, j := i - 1, j + 1;
    }
  }

  /** Reversing twice restores the bytes, and the word read from them in the other byte order is the same. */
  lemma {:induction false} ReverseTwice(s: seq<Byte>)
    ensures Reversed(Reversed(s)) == s
    ensures BigEndian(Reversed(s)) == LittleEndian(s)
    decreases |s|
  {
    if s != [] {
      ReverseTwice(s[1..]);
      assert Reversed(s)[..|s| - 1] == Reversed(s[1..]);
    }
  }

  function LittleEndian(s: seq<Byte>): nat {
    if s == [] then 0 else s[0] + 256 * LittleEndian(s[1..])
  }

  function BigEndian(s: seq<Byte>): nat {
    if s == [] then 0 else 256 * BigEndian(s[..|s| - 1]) + s[|s| - 1]
  }
}
