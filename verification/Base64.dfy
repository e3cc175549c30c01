/**
 Base64 (section 4 of RFC 4648): the agent's encoder and decoder, and the server's second
 encoder.
 */
module Base64 {
  import opened Json

  type Byte = n: nat | n < 256

  // ---- the alphabet ----

  const UPPER: string := "ABCDEFGHIJKLM" + "NOPQRSTUVWXYZ"
  const LOWER: string := "abcdefghijklm" + "nopqrstuvwxyz"
  const TABLE: string := UPPER + LOWER + "0123456789" + "+/"

  function Digit(n: nat): (c: char)
    requires n < 64
    ensures c != '='
  {
    if n < 26 then 'A' + n as char
    else if n < 52 then 'a' + (n - 26) as char
    else if n < 62 then '0' + (n - 52) as char
    else if n == 62 then '+' else '/'
  }

  /** `b64val`; -1 for a character outside the alphabet. */
  function DigitValue(c: char): (v: int)
    ensures -1 <= v < 64
  {
    if 'A' <= c <= 'Z' then c as int - 'A' as int
    else if 'a' <= c <= 'z' then c as int - 'a' as int + 26
    else if '0' <= c <= '9' then c as int - '0' as int + 52
    else if c == '+' then 62
    else if c == '/' then 63
    else -1
  }

  /** Consecutive characters starting with `c`. */
  predicate Consecutive(s: string, c: char) {
    |s| + c as nat < 128 && forall i :: 0 <= i < |s| ==> s[i] == c + i as char
  }

  lemma AlphabetsAreConsecutive()
    ensures Consecutive(UPPER, 'A') && Consecutive(LOWER, 'a') && Consecutive("0123456789", '0')
    ensures |UPPER| == |LOWER| == 26
  {
    assert Consecutive("ABCDEFGHIJKLM", 'A') && Consecutive("NOPQRSTUVWXYZ", 'N');
    assert Consecutive("abcdefghijklm", 'a') && Consecutive("nopqrstuvwxyz", 'n');
    Joined("ABCDEFGHIJKLM", 'A', "NOPQRSTUVWXYZ", 'N');
    Joined("abcdefghijklm", 'a', "nopqrstuvwxyz", 'n');
  }

  lemma Joined(s: string, c: char, t: string, d: char)
    requires Consecutive(s, c) && Consecutive(t, d) && d as nat == c as nat + |s|
    ensures Consecutive(s + t, c)
  {
  }

  lemma TableAt(upper: string, lower: string, digits: string, n: nat)
    requires Consecutive(upper, 'A') && |upper| == 26 && Consecutive(lower, 'a') && |lower| == 26
    requires Consecutive(digits, '0') && |digits| == 10 && n < 64
    ensures (upper + lower + digits + "+/")[n] == Digit(n)
  {
  }

  /** The table both encoders index holds the digits in order. */
  method TableEntry(n: nat) returns (c: char)
    requires n < 64
    ensures c == Digit(n)
  {
    AlphabetsAreConsecutive();
    TableAt(UPPER, LOWER, "0123456789", n);
    c := TABLE[n];
  }

  // ---- encoding ----

  /** The lowest `n` base-64 digits of `v`, highest first. */
  function Digits(v: nat, n: nat): (s: string)
    ensures |s| == n
  {
    if n == 0 then "" else Digits(v / 64, n - 1) + [Digit(v % 64)]
  }

  lemma FourDigits(v: nat)
    ensures Digits(v, 4) == [Digit(v / 0x4_0000 % 64), Digit(v / 0x1000 % 64), Digit(v / 0x40 % 64), Digit(v % 64)]
  {
    assert v / 0x1000 == v / 64 / 64 && v / 0x4_0000 == v / 64 / 64 / 64;
    assert Digits(v / 0x4_0000, 1) == [Digit(v / 0x4_0000 % 64)] by { assert Digits(v / 0x4_0000 / 64, 0) == ""; }
    assert Digits(v / 0x1000, 2) == Digits(v / 0x4_0000, 1) + [Digit(v / 0x1000 % 64)];
    assert Digits(v / 0x40, 3) == Digits(v / 0x1000, 2) + [Digit(v / 0x40 % 64)];
  }

  function Word(a: Byte, b: Byte, c: Byte): nat {
    (a as nat) * 0x1_0000 + (b as nat) * 0x100 + c as nat
  }

  function Group(a: Byte, b: Byte, c: Byte): (g: string)
    ensures |g| == 4
  {
    Digits(Word(a, b, c), 4)
  }

  /** How many groups `n` bytes take: `(n + 2) / 3`. */
  function Groups(n: nat): nat {
    if n == 0 then 0 else if n <= 3 then 1 else 1 + Groups(n - 3)
  }

  lemma {:induction false} GroupsByDivision(n: nat)
    ensures Groups(n) == (n + 2) / 3
  {
    if n > 3 { GroupsByDivision(n - 3); }
  }

  lemma ModThree(n: nat)
    requires n >= 3
    ensures n % 3 == (n - 3) % 3
  {
  }

  /** The encoding of section 4: whole groups, then a padded one for what is left. */
  function Encoded(data: seq<Byte>): (s: string)
    ensures |s| == 4 * Groups(|data|)
  {
    if data == [] then ""
    else if |data| == 1 then Group(data[0], 0, 0)[..2] + "=="
    else if |data| == 2 then Group(data[0], data[1], 0)[..3] + "="
    else Group(data[0], data[1], data[2]) + Encoded(data[3..])
  }

  /** The first group with missing bytes as zeros. */
  function FirstGroup(data: seq<Byte>): (g: string)
    requires data != []
    ensures |g| == 4
  {
    Group(data[0], if |data| > 1 then data[1] else 0, if |data| > 2 then data[2] else 0)
  }

  function AfterFirst(data: seq<Byte>): seq<Byte> {
    if |data| > 3 then data[3..] else []
  }

  /** What the agent's loop writes before it patches the padding. */
  function Filled(data: seq<Byte>): (s: string)
    ensures |s| == 4 * Groups(|data|)
    decreases |data|
  {
    if data == [] then "" else FirstGroup(data) + Filled(AfterFirst(data))
  }

  function Patched(s: string, rem: nat): string
    requires rem < 3 && (rem > 0 ==> |s| >= 2)
  {
    if rem == 1 then s[..|s| - 2] + "==" else if rem == 2 then s[..|s| - 1] + "=" else s
  }

  lemma PatchedLater(g: string, s: string, rem: nat)
    requires rem < 3 && |s| >= 2
    ensures Patched(g + s, rem) == g + Patched(s, rem)
  {
  }

  /** Patching the padding afterwards gives the same text as padding while encoding. */
  lemma {:induction false} PatchedFilled(data: seq<Byte>)
    ensures Patched(Filled(data), |data| % 3) == Encoded(data)
    decreases |data|
  {
    if |data| > 3 {
      var rest := data[3..];
      PatchedFilled(rest);
      ModThree(|data|);
      PatchedLater(FirstGroup(data), Filled(rest), |data| % 3);
      assert Filled(data) == FirstGroup(data) + Filled(rest);
      assert Encoded(data) == FirstGroup(data) + Encoded(rest);
    } else if data != [] {
      assert Filled(AfterFirst(data)) == "" && Encoded(data[|data|..]) == "";
      assert Filled(data) == FirstGroup(data);
      var g := FirstGroup(data);
      assert |data| == 1 ==> Encoded(data) == g[..2] + "==";
      assert |data| == 2 ==> Encoded(data) == g[..3] + "=";
      assert |data| == 3 ==> Encoded(data) == g + "" == g;
    }
  }

  /** `ctc_base64_encode`. */
  method EncodeC(data: seq<Byte>) returns (text: string)
    ensures text == Encoded(data)
  {
    var olen := 4 * ((|data| + 2) / 3);
    GroupsByDivision(|data|);
    var out := new char[olen];
    FillGroups(data, out);
    PatchedFilled(data);
    var rem := |data| % 3;
    if rem == 1 {
      out[olen - 1] := '=';
      out[olen - 2] := '=';
      assert out[..] == Filled(data)[..olen - 2] + "==";
    } else if rem == 2 {
      out[olen - 1] := '=';
      assert out[..] == Filled(data)[..olen - 1] + "=";
    }
    text := out[..];
  }

  /** The encoding loop. */
  method FillGroups(data: seq<Byte>, out: array<char>)
    requires out.Length == |Filled(data)|
    modifies out
    ensures out[..] == Filled(data)
  {
    var len := |data|;
    var i, j := 0, 0;
    ghost var left := data;
    while i < len
      invariant 0 <= i <= len && left == data[i..]
      invariant 0 <= j <= out.Length && j + |Filled(left)| == out.Length
      invariant out[..j] + Filled(left) == Filled(data)
    {
      ghost var was := out[..j];
      var a, b, c, next := NextBytes(data, i);
      WriteGroup(out, j, a, b, c, next, len);
      RoundFills(was, out[..j + 4], left);
      i := next;
      left := AfterFirst(left);
      j := j + 4;
    }
    assert Filled(left) == "" && out[..j] == out[..];
  }

  lemma RoundFills(was: string, now: string, left: seq<Byte>)
    requires left != [] && now == was + FirstGroup(left)
    ensures now + Filled(AfterFirst(left)) == was + Filled(left)
  {
    assert Filled(left) == FirstGroup(left) + Filled(AfterFirst(left));
    Assoc(was, FirstGroup(left), Filled(AfterFirst(left)));
  }

  /** Up to three bytes, zeros past the end. */
  method NextBytes(data: seq<Byte>, start: nat) returns (a: Byte, b: Byte, c: Byte, i: nat)
    requires start < |data|
    ensures a == data[start] && start < i <= |data| && data[i..] == AfterFirst(data[start..])
    ensures b == if start + 1 < |data| then data[start + 1] else 0
    ensures c == if start + 2 < |data| then data[start + 2] else 0
  {
    a, b, c := data[start], 0, 0;
    i := start + 1;
    if i < |data| { b := data[i]; i := i + 1; }
    if i < |data| { c := data[i]; i := i + 1; }
  }

  /** The four stores of one round; both padding tests look past the end and never hold. */
  method WriteGroup(out: array<char>, j: nat, a: Byte, b: Byte, c: Byte, i: nat, len: nat)
    requires j + 4 <= out.Length && 1 <= i <= len
    modifies out
    ensures out[..j + 4] == old(out[..j]) + Group(a, b, c)
  {
    var v := Word(a, b, c);
    FourDigits(v);
    var d0 := TableEntry(v / 0x4_0000 % 64);
    var d1 := TableEntry(v / 0x1000 % 64);
    var d2 := TableEntry(v / 0x40 % 64);
    var d3 := TableEntry(v % 64);
    out[j] := d0;
    out[j + 1] := d1;
    out[j + 2] := if i - 1 > len then '=' else d2;
    out[j + 3] := if i > len + 1 then '=' else d3;
  }

  /** The server's `base64Encode`. */
  method EncodeGo(data: seq<Byte>) returns (text: string)
    ensures text == Encoded(data)
  {
    text := "";
    var i := 0;
    ghost var left := data;
    while i < |data|
      invariant 0 <= i && left == if i < |data| then data[i..] else []
      invariant text + Encoded(left) == Encoded(data)
    {
      var rem := |data| - i;
      var n: nat := (data[i] as nat) * 0x1_0000;
      if rem > 1 { n := n + (data[i + 1] as nat) * 0x100; }
      if rem > 2 { n := n + data[i + 2] as nat; }
      var group := GoGroup(n, rem);
      GoRound(left, n, text, group);
      text := text + group;
      left := AfterFirst(left);
      i := i + 3;
    }
    assert text + "" == text;
  }

  function PaddedDigits(n: nat, rem: nat): string {
    if rem == 1 then Digits(n, 4)[..2] + "==" else if rem == 2 then Digits(n, 4)[..3] + "=" else Digits(n, 4)
  }

  method GoGroup(n: nat, rem: nat) returns (group: string)
    requires rem > 0
    ensures group == PaddedDigits(n, rem)
  {
    FourDigits(n);
    var d0 := TableEntry(n / 0x4_0000 % 64);
    var d1 := TableEntry(n / 0x1000 % 64);
    var d2 := TableEntry(n / 0x40 % 64);
    var d3 := TableEntry(n % 64);
    group := [d0, d1];
    if rem > 1 { group := group + [d2]; } else { group := group + "="; }
    if rem > 2 { group := group + [d3]; } else { group := group + "="; }
  }

  lemma GoRound(left: seq<Byte>, n: nat, text: string, group: string)
    requires left != [] && group == PaddedDigits(n, |left|)
    requires n == Word(left[0], if |left| > 1 then left[1] else 0, if |left| > 2 then left[2] else 0)
    ensures text + group + Encoded(AfterFirst(left)) == text + Encoded(left)
  {
    if |left| < 3 { ShortRound(left, n, group); } else { LongRound(left, n, group); }
    Assoc(text, group, Encoded(AfterFirst(left)));
  }

  lemma ShortRound(left: seq<Byte>, n: nat, group: string)
    requires 0 < |left| < 3 && group == PaddedDigits(n, |left|) && n == Word(left[0], if |left| > 1 then left[1] else 0, 0)
    ensures group + Encoded(AfterFirst(left)) == Encoded(left)
  {
    assert Encoded(AfterFirst(left)) == "" && group + "" == group;
  }

  lemma LongRound(left: seq<Byte>, n: nat, group: string)
    requires |left| >= 3 && group == PaddedDigits(n, |left|) && n == Word(left[0], left[1], left[2])
    ensures group + Encoded(AfterFirst(left)) == Encoded(left)
  {
    if |left| == 3 { assert left[3..] == []; }
  }

  // ---- decoding ----

  /** The 24-bit word of four characters, padding as zero in the last two places; -1 on error. */
  function GroupWord(p: char, q: char, r: char, s: char): (v: int)
    ensures -1 <= v < 0x100_0000
  {
    var a, b := DigitValue(p), DigitValue(q);
    var c := if r == '=' then 0 else DigitValue(r);
    var d := if s == '=' then 0 else DigitValue(s);
    if a < 0 || b < 0 || c < 0 || d < 0 then -1 else a * 0x4_0000 + b * 0x1000 + c * 0x40 + d
  }

  /** The lowest `n` bytes of `v`, highest first. */
  function Bytes(v: nat, n: nat): (s: seq<Byte>)
    ensures |s| == n
  {
    if n == 0 then [] else Bytes(v / 0x100, n - 1) + [v % 0x100]
  }

  lemma ThreeBytes(v: nat)
    ensures Bytes(v, 3) == [v / 0x1_0000 % 0x100, v / 0x100 % 0x100, v % 0x100]
  {
    assert v / 0x1_0000 == v / 0x100 / 0x100;
    assert Bytes(v / 0x1_0000, 1) == [v / 0x1_0000 % 0x100] by { assert Bytes(v / 0x1_0000 / 0x100, 0) == []; }
    assert Bytes(v / 0x100, 2) == Bytes(v / 0x1_0000, 1) + [v / 0x100 % 0x100];
  }

  datatype Result = Bad | Good(bytes: seq<Byte>)

  function Prepend(done: seq<Byte>, r: Result): Result {
    if r.Bad? then Bad else Good(done + r.bytes)
  }

  /** All bytes of all groups, before cutting off the padding; an incomplete group is an error. */
  function AllBytes(text: string): (r: Result)
    ensures r.Good? && text != "" ==> |text| >= 4
  {
    if text == "" then Good([])
    else if |text| < 4 || GroupWord(text[0], text[1], text[2], text[3]) < 0 then Bad
    else Prepend(Bytes(GroupWord(text[0], text[1], text[2], text[3]), 3), AllBytes(text[4..]))
  }

  /** The length computed from the last two characters. */
  function OutputLength(text: string): int {
    |text| / 4 * 3 - (if text != "" && text[|text| - 1] == '=' then 1 else 0)
                   - (if |text| > 1 && text[|text| - 2] == '=' then 1 else 0)
  }

  lemma {:induction false} AllBytesLength(text: string)
    ensures AllBytes(text).Good? ==> |text| % 4 == 0 && |AllBytes(text).bytes| == |text| / 4 * 3
    ensures |text| % 4 == 0 ==> 0 <= OutputLength(text) <= |text| / 4 * 3
    decreases |text|
  {
    if |text| >= 4 { AllBytesLength(text[4..]); }
  }

  function Decoded(text: string): Result {
    if AllBytes(text).Bad? then Bad
    else AllBytesLength(text); Good(AllBytes(text).bytes[..OutputLength(text)])
  }

  /** A 24-bit word from its base-64 digits. */
  lemma FromDigits(v: nat)
    requires v < 0x100_0000
    ensures v / 0x4_0000 % 64 * 0x4_0000 + v / 0x1000 % 64 * 0x1000 + v / 0x40 % 64 * 0x40 + v % 64 == v
  {
    var x1 := v / 64;
    var x2 := x1 / 64;
    var x3 := x2 / 64;
    assert v == x1 * 64 + v % 64 && x1 == x2 * 64 + x1 % 64 && x2 == x3 * 64 + x2 % 64;
    assert v / 0x1000 == x2 && v / 0x4_0000 == x3 && x3 < 64;
  }

  lemma DigitRoundTrip(n: nat)
    requires n < 64
    ensures DigitValue(Digit(n)) == n
  {
  }

  /** Four digits read back as their word, also when padding stands for zero digits. */
  lemma GroupReads(v: nat)
    requires v < 0x100_0000
    ensures var g := Digits(v, 4);
            && GroupWord(g[0], g[1], g[2], g[3]) == v
            && (v % 64 == 0 ==> GroupWord(g[0], g[1], g[2], '=') == v)
            && (v % 64 == 0 && v / 64 % 64 == 0 ==> GroupWord(g[0], g[1], '=', '=') == v)
            && g[2] != '=' && g[3] != '='
  {
    FourDigits(v);
    FromDigits(v);
    DigitRoundTrip(v / 0x4_0000 % 64);
    DigitRoundTrip(v / 0x1000 % 64);
    DigitRoundTrip(v / 0x40 % 64);
    DigitRoundTrip(v % 64);
  }

  lemma Div256(q: nat, r: nat)
    requires r < 256
    ensures (q * 0x100 + r) / 0x100 == q && (q * 0x100 + r) % 0x100 == r
  {
  }

  lemma BytesOfWord(a: Byte, b: Byte, c: Byte)
    ensures Bytes(Word(a, b, c), 3) == [a, b, c] && Word(a, b, c) < 0x100_0000
  {
    var x: nat, y: nat := a, (a as nat) * 0x100 + b as nat;
    Div256(y, c);
    Div256(x, b);
    Div256(0, a);
    assert Word(a, b, c) == y * 0x100 + c as nat;
    assert Bytes(0, 0) == [];
    assert Bytes(x, 1) == [] + [a];
    assert Bytes(y, 2) == [a] + [b];
  }

  lemma Div64(q: nat)
    ensures q * 64 % 64 == 0 && q * 64 / 64 == q
  {
  }

  /** Missing bytes leave zero digits. */
  lemma ZeroDigits(a: Byte, b: Byte)
    ensures Word(a, b, 0) % 64 == 0 && Word(a, 0, 0) / 64 % 64 == 0
  {
    Div64((a as nat) * 0x400 + (b as nat) * 4);
    Div64((a as nat) * 0x400);
    Div64((a as nat) * 16);
    assert Word(a, b, 0) == ((a as nat) * 0x400 + (b as nat) * 4) * 64;
    assert Word(a, 0, 0) == (a as nat) * 0x400 * 64;
  }

  /** The digits of a group, whole or padded, read back as the word of its bytes. */
  lemma GroupOfBytes(a: Byte, b: Byte, c: Byte)
    ensures var g, v := Group(a, b, c), Word(a, b, c);
            && GroupWord(g[0], g[1], g[2], g[3]) == v
            && (c == 0 ==> GroupWord(g[0], g[1], g[2], '=') == v)
            && (b == 0 && c == 0 ==> GroupWord(g[0], g[1], '=', '=') == v)
            && g[2] != '=' && g[3] != '='
  {
    BytesOfWord(a, b, c);
    GroupReads(Word(a, b, c));
    ZeroDigits(a, b);
  }

  /** A group decodes to the bytes of its word. */
  lemma AllBytesGroup(g: string, rest: string)
    requires |g| == 4
    ensures var v := GroupWord(g[0], g[1], g[2], g[3]);
            AllBytes(g + rest) == if v < 0 then Bad else Prepend(Bytes(v, 3), AllBytes(rest))
  {
    assert (g + rest)[4..] == rest;
  }

  function Zeros(n: nat): seq<Byte> { seq(n, _ => 0) }

  function PadCount(n: nat): nat {
    if n < 3 then (if n == 0 then 0 else 3 - n) else PadCount(n - 3)
  }

  lemma TakeThree(data: seq<Byte>, z: seq<Byte>)
    requires |data| >= 3
    ensures [data[0], data[1], data[2]] + (data[3..] + z) == data + z
  {
  }

  lemma {:induction false} AllBytesEncoded(data: seq<Byte>)
    ensures AllBytes(Encoded(data)) == Good(data + Zeros(PadCount(|data|)))
    ensures OutputLength(Encoded(data)) == |data|
    decreases |data|
  {
    if data == [] {
      assert data + Zeros(0) == [];
    } else if |data| < 3 {
      PaddedGroup(data);
    } else {
      var g, rest := Group(data[0], data[1], data[2]), data[3..];
      GroupOfBytes(data[0], data[1], data[2]);
      AllBytesEncoded(rest);
      BytesOfWord(data[0], data[1], data[2]);
      AllBytesGroup(g, Encoded(rest));
      TakeThree(data, Zeros(PadCount(|rest|)));
      OutputAfter(g, Encoded(rest), Groups(|rest|));
    }
  }

  lemma PaddedGroup(data: seq<Byte>)
    requires 0 < |data| < 3
    ensures AllBytes(Encoded(data)) == Good(data + Zeros(PadCount(|data|)))
    ensures OutputLength(Encoded(data)) == |data|
  {
    ShortData(data);
    if |data| == 1 { OneByte(data[0]); } else { TwoBytes(data[0], data[1]); }
  }

  lemma ShortData(data: seq<Byte>)
    ensures |data| == 1 ==> data == [data[0]] && data + Zeros(PadCount(|data|)) == [data[0], 0, 0]
    ensures |data| == 2 ==> data == [data[0], data[1]] && data + Zeros(PadCount(|data|)) == [data[0], data[1], 0]
  {
  }

  lemma OneByte(a: Byte)
    ensures AllBytes(Encoded([a])) == Good([a, 0, 0]) && OutputLength(Encoded([a])) == 1
  {
    var g := Group(a, 0, 0);
    var t := [g[0], g[1], '=', '='];
    assert Encoded([a]) == t == t + "";
    GroupOfBytes(a, 0, 0);
    BytesOfWord(a, 0, 0);
    AllBytesGroup(t, "");
  }

  lemma TwoBytes(a: Byte, b: Byte)
    ensures AllBytes(Encoded([a, b])) == Good([a, b, 0]) && OutputLength(Encoded([a, b])) == 2
  {
    var g := Group(a, b, 0);
    var t := [g[0], g[1], g[2], '='];
    assert Encoded([a, b]) == t == t + "";
    GroupOfBytes(a, b, 0);
    BytesOfWord(a, b, 0);
    AllBytesGroup(t, "");
  }

  lemma OutputAfter(g: string, rest: string, n: nat)
    requires |g| == 4 && |rest| == 4 * n && g[2] != '=' && g[3] != '='
    ensures OutputLength(g + rest) == 3 + OutputLength(rest)
  {
    if rest == "" { assert g + rest == g; }
  }

  /** Decoding undoes encoding for every byte string. */
  lemma RoundTrip(data: seq<Byte>)
    ensures Decoded(Encoded(data)) == Good(data)
  {
    AllBytesEncoded(data);
    assert (data + Zeros(PadCount(|data|)))[..|data|] == data;
  }

  lemma FourFit(i: nat, n: nat)
    requires i < n && i % 4 == 0 && n % 4 == 0
    ensures i + 4 <= n && (i + 4) % 4 == 0
  {
  }

  /** One round of decoding. */
  lemma DecodeRound(text: string, i: nat, full: seq<Byte>)
    requires i + 4 <= |text| && AllBytes(text) == Prepend(full, AllBytes(text[i..]))
    ensures var v := GroupWord(text[i], text[i + 1], text[i + 2], text[i + 3]);
            AllBytes(text) == if v < 0 then Bad else Prepend(full + Bytes(v, 3), AllBytes(text[i + 4..]))
  {
    var left := text[i..];
    assert left[4..] == text[i + 4..];
    var v := GroupWord(left[0], left[1], left[2], left[3]);
    if v >= 0 { PrependTwice(full, Bytes(v, 3), AllBytes(left[4..])); }
  }

  /** `ctc_base64_decode`: every accepted text fills exactly the length computed up front. */
  method DecodeC(text: string) returns (r: Result)
    ensures r == Decoded(text)
    ensures r.Good? ==> |r.bytes| == OutputLength(text)
  {
    AllBytesLength(text);
    if |text| % 4 != 0 { return Bad; }
    var olen := OutputLength(text);
    var out: seq<Byte>, i := [], 0;
    ghost var full: seq<Byte> := [];
    assert text[0..] == text && Prepend([], AllBytes(text)) == AllBytes(text);
    while i < |text|
      invariant 0 <= i <= |text| && i % 4 == 0
      invariant AllBytes(text) == Prepend(full, AllBytes(text[i..]))
      invariant out == CutTo(full, olen)
    {
      FourFit(i, |text|);
      DecodeRound(text, i, full);
      var v := GroupWord(text[i], text[i + 1], text[i + 2], text[i + 3]);
      if v < 0 { return Bad; }
      out := Store(out, full, v, olen);
      full := full + Bytes(v, 3);
      i := i + 4;
    }
    assert text[i..] == "" && full + [] == full;
    r := Good(out);
  }

  function CutTo(s: seq<Byte>, n: nat): seq<Byte> { if |s| < n then s else s[..n] }

  /** The three guarded stores of one round. */
  method Store(out: seq<Byte>, ghost full: seq<Byte>, v: nat, olen: nat) returns (r: seq<Byte>)
    requires out == CutTo(full, olen)
    ensures r == CutTo(full + Bytes(v, 3), olen)
  {
    ThreeBytes(v);
    r := out;
    if |r| < olen { r := r + [v / 0x1_0000 % 0x100]; }
    if |r| < olen { r := r + [v / 0x100 % 0x100]; }
    if |r| < olen { r := r + [v % 0x100]; }
  }

  lemma PrependTwice(a: seq<Byte>, b: seq<Byte>, r: Result)
    ensures Prepend(a, Prepend(b, r)) == Prepend(a + b, r)
  {
    if r.Good? { assert a + (b + r.bytes) == a + b + r.bytes; }
  }

  // ---- what is accepted, and the standard's examples ----

  predicate InAlphabet(c: char) { c in UPPER || c in LOWER || c in "0123456789" || c == '+' || c == '/' }

  lemma DigitValueExact(c: char)
    ensures DigitValue(c) >= 0 <==> InAlphabet(c)
  {
    AlphabetsAreConsecutive();
    if 'A' <= c <= 'Z' { assert UPPER[c as nat - 'A' as nat] == c; }
    if 'a' <= c <= 'z' { assert LOWER[c as nat - 'a' as nat] == c; }
    if '0' <= c <= '9' { assert "0123456789"[c as nat - '0' as nat] == c; }
  }

  /** A digit, or padding in the third or fourth place of a group. */
  predicate PlaceOk(c: char, i: nat) {
    InAlphabet(c) || (c == '=' && i % 4 >= 2)
  }

  predicate PlacesOk(text: string) {
    forall i :: 0 <= i < |text| ==> PlaceOk(text[i], i)
  }

  lemma GroupOkExact(p: char, q: char, r: char, s: char)
    ensures GroupWord(p, q, r, s) >= 0 <==> PlaceOk(p, 0) && PlaceOk(q, 1) && PlaceOk(r, 2) && PlaceOk(s, 3)
  {
    DigitValueExact(p);
    DigitValueExact(q);
    DigitValueExact(r);
    DigitValueExact(s);
  }

  lemma SamePlace(c: char, i: nat)
    ensures PlaceOk(c, i) <==> PlaceOk(c, i + 4)
  {
  }

  lemma LaterPlaces(text: string)
    requires |text| >= 4
    ensures PlacesOk(text) <==> PlaceOk(text[0], 0) && PlaceOk(text[1], 1) && PlaceOk(text[2], 2) && PlaceOk(text[3], 3)
                                && PlacesOk(text[4..])
  {
    var rest := text[4..];
    forall i | 0 <= i < |rest| ensures PlaceOk(rest[i], i) <==> PlaceOk(text[i + 4], i + 4) { SamePlace(rest[i], i); }
    if PlacesOk(text) {
      forall i | 0 <= i < |rest| ensures PlaceOk(rest[i], i) { assert PlaceOk(text[i + 4], i + 4); }
    }
    if PlacesOk(rest) {
      forall i | 4 <= i < |text| ensures PlaceOk(text[i], i) { assert PlaceOk(rest[i - 4], i - 4); }
    }
  }

  lemma ModFour(n: nat)
    requires n >= 4
    ensures n % 4 == (n - 4) % 4
  {
  }

  lemma FirstGroupDecides(text: string)
    requires |text| >= 4
    ensures AllBytes(text).Good? <==>
            GroupWord(text[0], text[1], text[2], text[3]) >= 0 && AllBytes(text[4..]).Good?
  {
  }

  lemma {:induction false} AllBytesAccepts(text: string)
    ensures AllBytes(text).Good? <==> |text| % 4 == 0 && PlacesOk(text)
    decreases |text|
  {
    if |text| >= 4 {
      GroupOkExact(text[0], text[1], text[2], text[3]);
      LaterPlaces(text);
      FirstGroupDecides(text);
      ModFour(|text|);
      AllBytesAccepts(text[4..]);
    } else if text != "" {
      assert AllBytes(text) == Bad && |text| % 4 == |text|;
    }
  }

  /** A text is accepted exactly if it is whole groups of the alphabet, with padding only in the last two places of a group. */
  lemma AcceptsExactly(text: string)
    ensures Decoded(text).Good? <==> |text| % 4 == 0 && PlacesOk(text)
  {
    AllBytesAccepts(text);
  }

  lemma ExampleF()
    ensures Group(102, 0, 0)[..2] == "Zg"
  {
    assert Word(102, 0, 0) == 6684672;
    FourDigits(6684672);
    assert 6684672 / 0x4_0000 == 25 && 6684672 / 0x1000 == 1632;
    assert Digit(25) == 'Z' && Digit(32) == 'g';
  }

  lemma ExampleFo()
    ensures Group(102, 111, 0)[..3] == "Zm8"
  {
    assert Word(102, 111, 0) == 6713088;
    FourDigits(6713088);
    assert 6713088 / 0x4_0000 % 64 == 25 && 6713088 / 0x1000 % 64 == 38 && 6713088 / 0x40 % 64 == 60;
    assert Digit(25) == 'Z' && Digit(38) == 'm' && Digit(60) == '8';
  }

  lemma ExampleFoo()
    ensures Group(102, 111, 111) == "Zm9v"
  {
    assert Word(102, 111, 111) == 6713199;
    FourDigits(6713199);
    assert 6713199 / 0x4_0000 % 64 == 25 && 6713199 / 0x1000 % 64 == 38;
    assert 6713199 / 0x40 % 64 == 61 && 6713199 % 64 == 47;
    assert Digit(25) == 'Z' && Digit(38) == 'm' && Digit(61) == '9' && Digit(47) == 'v';
  }

  /** Examples of section 10 of RFC 4648: f, fo, foo. */
  lemma StandardExamples()
    ensures Encoded([102]) == "Zg==" && Encoded([102, 111]) == "Zm8=" && Encoded([102, 111, 111]) == "Zm9v"
  {
    ExampleF();
    ExampleFo();
    ExampleFoo();
    var foo: seq<Byte> := [102, 111, 111];
    assert foo[3..] == [];
    assert Encoded(foo) == Group(102, 111, 111) + Encoded([]) == "Zm9v" + "";
  }
}
