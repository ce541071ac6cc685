/**
 Base58: byte strings as text without look-alike characters.  Leading zero bytes become leading '1's, the rest is the
 number the bytes make, written in base 58.
 */
module Base58 {
  import opened Wrappers
  import opened Nonlinear
  import opened Positional
  import opened Powers

  type Bytes = seq<nat>

  // ----------------------------------------------------------------- alphabet

  /** All alphanumeric characters except for "0", "I", "O", and "l", by their runs of consecutive codes. */
  function CharOf(d: nat): char
    requires d < 58
  {
    if d < 9 then (49 + d) as char               // '1' to '9'
    else if d < 17 then (65 + (d - 9)) as char   // 'A' to 'H'
    else if d < 22 then (74 + (d - 17)) as char  // 'J' to 'N'
    else if d < 33 then (80 + (d - 22)) as char  // 'P' to 'Z'
    else if d < 44 then (97 + (d - 33)) as char  // 'a' to 'k'
    else (109 + (d - 44)) as char                // 'm' to 'z'
  }

  /** The place of a character in the alphabet, or 58. */
  function DigitOf(c: char): (d: nat)
    ensures d <= 58 && (d < 58 ==> CharOf(d) == c)
  {
    var n := c as int;
    var d := if 49 <= n <= 57 then n - 49
             else if 65 <= n <= 72 then n - 65 + 9
             else if 74 <= n <= 78 then n - 74 + 17
             else if 80 <= n <= 90 then n - 80 + 22
             else if 97 <= n <= 107 then n - 97 + 33
             else if 109 <= n <= 122 then n - 109 + 44
             else 58;
    d
  }

  lemma DigitOfChar(d: nat)
    requires d < 58
    ensures DigitOf(CharOf(d)) == d
  {
  }

  /** The alphabet ascends in character codes, and misses just these four of the letters and digits. */
  lemma Alphabet(i: nat, j: nat, c: char)
    requires i < 58 && j < 58
    ensures i < j ==> CharOf(i) < CharOf(j)
    ensures DigitOf(c) < 58 <==> ('0' <= c <= '9' || 'A' <= c <= 'Z' || 'a' <= c <= 'z') && c != '0' && c != 'I' && c != 'O' && c != 'l'
  {
  }

  // ----------------------------------------------------------------- capacity

  lemma Pow58Of8()
    ensures Pow(58, 8) == 128063081718016
  {
    assert Pow(58, 2) == 3364;
    PowAdd(58, 2, 2);
    PowAdd(58, 4, 4);
  }

  /** 256^8 <= 58^11 */
  lemma EncodeRate()
    ensures Pow(256, 8) <= Pow(58, 11)
  {
    Pow58Of8();
    assert Pow(58, 3) == 195112;
    PowAdd(58, 8, 3);
    Pow256Of4();
    PowAdd(256, 4, 4);
  }

  /** 58^71 <= 256^52 */
  lemma DecodeRate()
    ensures Pow(58, 71) <= Pow(256, 52)
  {
    Pow58Of8();
    PowAdd(58, 8, 8);
    PowAdd(58, 16, 16);
    PowAdd(58, 32, 32);
    assert Pow(58, 64) == 72342179355466901471258927612150153907721848234316445933056526044582001260898145151856420451025374266490194231296;
    Pow58Of7();
    PowAdd(58, 64, 7);
    Pow256Of52();
  }

  lemma Pow58Of7()
    ensures Pow(58, 7) == 2207984167552
  {
    assert Pow(58, 3) == 195112;
    PowAdd(58, 3, 4);
    PowAdd(58, 3, 1);
  }

  lemma Pow256Of4()
    ensures Pow(256, 4) == 0x1_0000_0000
  {
    assert Pow(256, 2) == 65536;
    PowAdd(256, 2, 2);
  }

  lemma Pow256Of16()
    ensures Pow(256, 16) == 0x1_0000_0000_0000_0000_0000_0000_0000_0000
  {
    Pow256Of4();
    PowAdd(256, 4, 4);
    PowAdd(256, 8, 8);
  }

  lemma Pow256Of52()
    ensures Pow(256, 52) == 169230328010303641331690318856389386196071598838855992136870091590247882556495704531248437872567112920983350278405979725889536
  {
    Pow256Of4();
    Pow256Of16();
    PowAdd(256, 16, 16);
    PowAdd(256, 32, 16);
    PowAdd(256, 48, 4);
  }

  /** The buffer of the encoder always suffices. */
  lemma EncodeFits(n: nat)
    ensures Pow(256, n) <= Pow(58, n * 138 / 100 + 1)
  {
    EncodeRate();
    var k := n * 138 / 100 + 1;
    PowCompare(256, 8, 58, 11, n, k, 11 * n, k * 8);
  }

  /** The buffer of the decoder always suffices. */
  lemma DecodeFits(n: nat)
    ensures Pow(58, n) <= Pow(256, n * 733 / 1000 + 1)
  {
    DecodeRate();
    var k := n * 733 / 1000 + 1;
    PowCompare(58, 71, 256, 52, n, k, 52 * n, k * 71);
  }

  // ------------------------------------------------------------------ meaning

  /** How many leading elements equal x. */
  function Leading<T(==)>(s: seq<T>, x: T): (n: nat)
    ensures n <= |s| && (forall i | 0 <= i < n :: s[i] == x) && (n < |s| ==> s[n] != x)
  {
    if s == [] || s[0] != x then 0 else 1 + Leading(s[1..], x)
  }

  ghost predicate InAlphabet(s: string) { forall i | 0 <= i < |s| :: DigitOf(s[i]) < 58 }

  function DigitsOf(s: string): (r: seq<nat>)
    ensures |r| == |s| && forall i | 0 <= i < |s| :: r[i] == DigitOf(s[i])
  {
    seq(|s|, i requires 0 <= i < |s| => DigitOf(s[i]))
  }

  /** A text stands for some bytes: as many leading '1's as leading zero bytes, and the same number after them. */
  ghost predicate Represents(s: string, b: Bytes) {
    && InAlphabet(s) && Digits(256, b) && Leading(s, '1') == Leading(b, 0)
    && Val(58, DigitsOf(s[Leading(s, '1')..])) == Val(256, b[Leading(b, 0)..])
  }

  /** A text stands for at most one byte string. */
  lemma OneMeaning(s: string, b: Bytes, c: Bytes)
    requires Represents(s, b) && Represents(s, c)
    ensures b == c
  {
    var z := Leading(b, 0);
    NotationUnique(256, b[z..], c[z..]);
    assert b == b[..z] + b[z..] && c == c[..z] + c[z..] && b[..z] == c[..z];
  }

  /** And a byte string is stood for by at most one text. */
  lemma OneText(s: string, t: string, b: Bytes)
    requires Represents(s, b) && Represents(t, b)
    ensures s == t
  {
    var z := Leading(b, 0);
    SameRest(s, t, z);
    assert s == s[..z] + s[z..] && t == t[..z] + t[z..] && s[..z] == t[..z];
  }

  lemma SameRest(s: string, t: string, z: nat)
    requires InAlphabet(s) && InAlphabet(t) && z == Leading(s, '1') == Leading(t, '1')
    requires Val(58, DigitsOf(s[z..])) == Val(58, DigitsOf(t[z..]))
    ensures s[z..] == t[z..]
  {
    DigitsTrimmed(s, z);
    DigitsTrimmed(t, z);
    NotationUnique(58, DigitsOf(s[z..]), DigitsOf(t[z..]));
    SameDigitsSameText(s[z..], t[z..]);
  }

  /** After the leading '1's comes a digit that is not zero. */
  lemma DigitsTrimmed(s: string, z: nat)
    requires InAlphabet(s) && z == Leading(s, '1')
    ensures Digits(58, DigitsOf(s[z..])) && Trimmed(DigitsOf(s[z..]))
  {
    assert CharOf(0) == '1';
  }

  lemma SameDigitsSameText(s: string, t: string)
    requires InAlphabet(s) && InAlphabet(t) && DigitsOf(s) == DigitsOf(t)
    ensures s == t
  {
    forall i | 0 <= i < |s| ensures s[i] == t[i] {
      assert DigitsOf(s)[i] == DigitsOf(t)[i];
    }
  }

  // ----------------------------------------------------------------- encoding

  /** EncodeBase58. */
  method Encode(bytes: Bytes) returns (str: string)
    requires Digits(256, bytes)
    ensures Represents(str, bytes)
  {
    var zeroes := 0;
    while zeroes < |bytes| && bytes[zeroes] == 0
      invariant 0 <= zeroes <= |bytes| && forall i | 0 <= i < zeroes :: bytes[i] == 0
    {
      zeroes := zeroes + 1;
    }
    LeadingIs(bytes, 0, zeroes);
    EncodeFits(|bytes| - zeroes);
    var digits := Convert(bytes[zeroes..], 256, 58, (|bytes| - zeroes) * 138 / 100 + 1);
    str := Spell(zeroes, digits);
  }

  lemma {:induction false} LeadingIs<T>(s: seq<T>, x: T, n: nat)
    requires n <= |s| && (forall i | 0 <= i < n :: s[i] == x) && (n < |s| ==> s[n] != x)
    ensures Leading(s, x) == n
  {
    if n > 0 {
      LeadingIs(s[1..], x, n - 1);
    }
  }

  /** Translating digits, without leading zeros, after some '1's. */
  method Spell(zeroes: nat, digits: seq<nat>) returns (str: string)
    requires Digits(58, digits) && Trimmed(digits)
    ensures InAlphabet(str) && Leading(str, '1') == zeroes && DigitsOf(str[zeroes..]) == digits
  {
    str := seq(zeroes, _ => '1');
    for i := 0 to |digits|
      invariant |str| == zeroes + i && forall j | 0 <= j < zeroes :: str[j] == '1'
      invariant forall j | 0 <= j < i :: str[zeroes + j] == CharOf(digits[j])
    {
      str := str + [CharOf(digits[i])];
    }
    assert DigitOf('1') == 0 && CharOf(0) == '1';
    forall j | 0 <= j < |digits| ensures DigitOf(str[zeroes + j]) == digits[j] {
      DigitOfChar(digits[j]);
    }
    LeadingIs(str, '1', zeroes);
    assert DigitsOf(str[zeroes..]) == digits;
  }

  /** The outer loop of both conversions: reading digits of one base, most significant first, into a buffer of digits
      of the other; leading zeros of the buffer are dropped at the end. */
  method Convert(input: seq<nat>, from: nat, to: nat, size: nat) returns (r: seq<nat>)
    requires (from == 256 && to == 58) || (from == 58 && to == 256)
    requires Digits(from, input) && Pow(from, |input|) <= Pow(to, size)
    ensures Digits(to, r) && Trimmed(r) && Val(to, r) == Val(from, input)
  {
    var b := new nat[size](_ => 0);
    var length := 0;
    ValZeros(to, b[..]);
    for i := 0 to |input|
      invariant Digits(to, b[..]) && Val(to, b[..]) == Val(from, input[..i])
      invariant 0 <= length <= b.Length && forall j | 0 <= j < b.Length - length :: b[j] == 0
    {
      Room(input, from, to, size, i);
      length := MultiplyAdd(b, to, from, input[i], length);
    }
    assert input[..|input|] == input;
    var k := size - length;
    while k < size && b[k] == 0
      invariant size - length <= k <= size && forall j | 0 <= j < k :: b[j] == 0
    {
      k := k + 1;
    }
    ValSkipZeros(to, b[..], k);
    r := b[k..];
    assert b[..][k..] == r;
  }

  /** There is room for one more digit of the input. */
  lemma Room(input: seq<nat>, from: nat, to: nat, size: nat, i: nat)
    requires i < |input| && from > 0 && Digits(from, input) && Pow(from, |input|) <= Pow(to, size)
    ensures from * Val(from, input[..i]) + input[i] == Val(from, input[..i + 1]) < Pow(to, size)
  {
    assert input[..i + 1] == input[..i] + [input[i]];
    ValAppend(from, input[..i], input[i]);
    MulCommute(from, Val(from, input[..i]));
    ValBound(from, input[..i + 1]);
    PowExponent(from, i + 1, |input|);
  }

  // ----------------------------------------------------------------- decoding

  predicate IsSpace(c: char) { c in {' ', '\t', '\n', '\r', 11 as char, 12 as char} }

  /** The spaces at the front of a text. */
  function Spaces(s: string): (n: nat)
    ensures n <= |s| && (forall i | 0 <= i < n :: IsSpace(s[i])) && (n < |s| ==> !IsSpace(s[n]))
  {
    if s == [] || !IsSpace(s[0]) then 0 else 1 + Spaces(s[1..])
  }

  /** The characters up to the first space. */
  function Word(s: string): (n: nat)
    ensures n <= |s| && (forall i | 0 <= i < n :: !IsSpace(s[i])) && (n < |s| ==> IsSpace(s[n]))
  {
    if s == [] || IsSpace(s[0]) then 0 else 1 + Word(s[1..])
  }

  /** What is left of a text without the spaces around it. */
  function Core(s: string): string {
    var t := s[Spaces(s)..];
    t[..Word(t)]
  }

  /** Only spaces follow the core. */
  ghost predicate EndsWell(s: string) {
    var t := s[Spaces(s)..];
    var u := t[Word(t)..];
    Spaces(u) == |u|
  }

  /** DecodeBase58 of a text without NUL characters: it succeeds exactly for a word of the alphabet between spaces, and
      gives the bytes the word stands for. */
  method Decode(s: string) returns (r: Option<Bytes>)
    ensures r.Some? <==> InAlphabet(Core(s)) && EndsWell(s)
    ensures r.Some? ==> Represents(Core(s), r.value)
  {
    var parsed := Parse(s);
    if parsed.None? {
      return None;
    }
    var (zeroes, digits, room) := parsed.value;
    DigitsTrimmed(Core(s), zeroes);
    var out := Assemble(zeroes, digits, room);
    r := Some(out);
  }

  /** The parts of a text: how many '1's lead its word, the digits after them, and the length the buffer is sized by,
      which counts the spaces behind too. */
  method Parse(s: string) returns (r: Option<(nat, seq<nat>, nat)>)
    ensures r.Some? <==> InAlphabet(Core(s)) && EndsWell(s)
    ensures r.Some? ==> var (zeroes, digits, room) := r.value;
      zeroes == Leading(Core(s), '1') && digits == DigitsOf(Core(s)[zeroes..]) && |digits| <= room
  {
    var start := SkipSpaces(s);
    var t := s[start..];
    var zeroes := 0;
    while zeroes < |t| && t[zeroes] == '1'
      invariant 0 <= zeroes <= |t| && forall i | 0 <= i < zeroes :: t[i] == '1'
    {
      zeroes := zeroes + 1;
    }
    var word := ReadWord(t, zeroes);
    if word.None? {
      return None;
    }
    var digits := word.value;
    var rest := t[zeroes + |digits|..];
    var spaces := SkipSpaces(rest);
    if spaces != |rest| {
      return None;
    }
    LeadingIs(t[..Word(t)], '1', zeroes);
    assert t[..Word(t)][zeroes..] == t[zeroes..Word(t)];
    r := Some((zeroes, digits, |t| - zeroes));
  }

  method Assemble(zeroes: nat, digits: seq<nat>, room: nat) returns (out: Bytes)
    requires Digits(58, digits) && |digits| <= room
    ensures Digits(256, out) && Leading(out, 0) == zeroes && Val(256, out[zeroes..]) == Val(58, digits)
  {
    DecodeFits(room);
    PowExponent(58, |digits|, room);
    var bytes := Convert(digits, 58, 256, room * 733 / 1000 + 1);
    out := seq(zeroes, _ => 0) + bytes;
    LeadingIs(out, 0, zeroes);
    assert out[zeroes..] == bytes;
  }

  method SkipSpaces(s: string) returns (n: nat)
    ensures n == Spaces(s)
  {
    n := 0;
    while n < |s| && IsSpace(s[n])
      invariant 0 <= n <= |s| && Spaces(s) == n + Spaces(s[n..])
    {
      assert s[n..][1..] == s[n + 1..];
      n := n + 1;
    }
  }

  /** The digits of the word that goes on after its leading '1's; nothing when a character is not in the alphabet. */
  method ReadWord(t: string, zeroes: nat) returns (r: Option<seq<nat>>)
    requires zeroes <= |t| && (forall i | 0 <= i < zeroes :: t[i] == '1') && (zeroes < |t| ==> t[zeroes] != '1')
    ensures r.Some? <==> InAlphabet(t[..Word(t)])
    ensures r.Some? ==> zeroes + |r.value| == Word(t) && r.value == DigitsOf(t[zeroes..Word(t)])
  {
    var digits: seq<nat> := [];
    var n := zeroes;
    assert CharOf(0) == '1' && DigitOf('1') == 0;
    while n < |t| && !IsSpace(t[n])
      invariant zeroes <= n <= |t| && |digits| == n - zeroes
      invariant forall i | 0 <= i < n :: !IsSpace(t[i]) && DigitOf(t[i]) < 58
      invariant forall i | 0 <= i < n - zeroes :: digits[i] == DigitOf(t[zeroes + i])
    {
      var d := DigitOf(t[n]);
      if d == 58 {
        WordBeyond(t, n);
        assert t[..Word(t)][n] == t[n];
        return None;
      }
      digits := digits + [d];
      n := n + 1;
    }
    WordIs(t, n);
    assert digits == DigitsOf(t[zeroes..n]);
    r := Some(digits);
  }

  lemma {:induction false} WordIs(t: string, n: nat)
    requires n <= |t| && (forall i | 0 <= i < n :: !IsSpace(t[i])) && (n < |t| ==> IsSpace(t[n]))
    ensures Word(t) == n
  {
    if n > 0 {
      WordIs(t[1..], n - 1);
    }
  }

  lemma {:induction false} WordBeyond(t: string, n: nat)
    requires n < |t| && forall i | 0 <= i <= n :: !IsSpace(t[i])
    ensures Word(t) > n
  {
    if n > 0 {
      WordBeyond(t[1..], n - 1);
    }
  }

  // --------------------------------------------------------------- round trips

  /** A text of the alphabet is its own core. */
  lemma PlainText(s: string)
    requires InAlphabet(s)
    ensures Core(s) == s && EndsWell(s)
  {
    forall i | 0 <= i < |s| ensures !IsSpace(s[i]) {
      assert DigitOf(s[i]) < 58;
    }
    assert s[Spaces(s)..] == s;
    WordIs(s, |s|);
  }

  method DecodeAfterEncode(bytes: Bytes) returns (r: Option<Bytes>)
    requires Digits(256, bytes)
    ensures r == Some(bytes)
  {
    var s := Encode(bytes);
    PlainText(s);
    r := Decode(s);
    OneMeaning(s, r.value, bytes);
  }

  method EncodeAfterDecode(s: string) returns (t: string)
    requires InAlphabet(s)
    ensures t == s
  {
    PlainText(s);
    var r := Decode(s);
    t := Encode(r.value);
    OneText(s, t, r.value);
  }

  // ----------------------------------------------------------------- checksums

  /** EncodeBase58Check: with the first four bytes of a hash behind the data. */
  method EncodeCheck(data: Bytes, hash: Bytes -> Bytes) returns (s: string)
    requires Digits(256, data) && Digits(256, hash(data)) && |hash(data)| >= 4
    ensures Represents(s, data + hash(data)[..4])
  {
    s := Encode(data + hash(data)[..4]);
  }

  method DecodeCheck(s: string, hash: Bytes -> Bytes) returns (r: Option<Bytes>)
    requires forall b: Bytes :: |hash(b)| >= 4
    ensures r.Some? <==> InAlphabet(Core(s)) && EndsWell(s) && exists data :: Represents(Core(s), data + hash(data)[..4])
    ensures r.Some? ==> Represents(Core(s), r.value + hash(r.value)[..4])
  {
    var b := Decode(s);
    if b.None? {
      return None;
    }
    NoneChecked(Core(s), b.value, hash);
    if |b.value| < 4 {
      return None;
    }
    var n := |b.value| - 4;
    var data := b.value[..n];
    assert b.value == data + b.value[n..];
    if hash(data)[..4] != b.value[n..] {
      return None;
    }
    r := Some(data);
  }

  /** Data with its checksum can only be the first part of the bytes. */
  lemma Checked(core: string, b: Bytes, data: Bytes, hash: Bytes -> Bytes)
    requires Represents(core, b) && |hash(data)| >= 4
    ensures Represents(core, data + hash(data)[..4]) ==>
            |b| >= 4 && data == b[..|b| - 4] && hash(data)[..4] == b[|b| - 4..]
  {
    if Represents(core, data + hash(data)[..4]) {
      OneMeaning(core, b, data + hash(data)[..4]);
    }
  }

  lemma NoneChecked(core: string, b: Bytes, hash: Bytes -> Bytes)
    requires Represents(core, b) && forall c: Bytes :: |hash(c)| >= 4
    ensures |b| < 4 || hash(b[..|b| - 4])[..4] != b[|b| - 4..] ==> !exists data :: Represents(core, data + hash(data)[..4])
  {
    forall data: Bytes ensures Represents(core, data + hash(data)[..4]) ==>
                               |b| >= 4 && data == b[..|b| - 4] && hash(data)[..4] == b[|b| - 4..] {
      Checked(core, b, data, hash);
    }
  }
}
