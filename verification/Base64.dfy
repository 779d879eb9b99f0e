/** Base64 (section 4 of RFC 4648): the encoder that carries leftover bits from
    one input byte to the next, and the decoder that overwrites its own input. */
module Base64 {
  import opened Wrappers

  // ---------------------------------------------------------------------------
  // The encoding as RFC 4648 defines it: 24-bit groups cut into four sextets.
  // ---------------------------------------------------------------------------

  const PAD: byte := 61

  function Symbol(v: byte): byte
    requires v < 64
  {
    if v < 26 then v + 65
    else if v < 52 then v + 71
    else if v < 62 then v - 4
    else if v == 62 then 43 else 47
  }

  predicate InAlphabet(c: byte) {
    65 <= c <= 90 || 97 <= c <= 122 || 48 <= c <= 57 || c == 43 || c == 47
  }

  /** The sextet a character of the alphabet stands for. */
  function Value(c: byte): (v: byte)
    requires InAlphabet(c)
    ensures v < 64 && Symbol(v) == c
  {
    if 65 <= c <= 90 then c - 65
    else if 97 <= c <= 122 then c - 71
    else if 48 <= c <= 57 then c + 4
    else if c == 43 then 62 else 63
  }

  lemma ValueOfSymbol(v: byte)
    requires v < 64
    ensures InAlphabet(Symbol(v)) && Value(Symbol(v)) == v && Symbol(v) != PAD
  {
  }

  /** Table 1 of RFC 4648, with the values of its letters in ASCII. */
  lemma SymbolIs(v: byte)
    requires v < 64
    ensures v <= 25 ==> Symbol(v) == 65 + v
    ensures 26 <= v <= 51 ==> Symbol(v) == 97 + (v - 26)
    ensures 52 <= v <= 61 ==> Symbol(v) == 48 + (v - 52)
    ensures Symbol(62) == 43 && Symbol(63) == 47
  {
  }

  function At(s: seq<byte>, i: nat): byte {
    if i < |s| then s[i] else 0
  }

  function Join3(a: byte, b: byte, c: byte): bv24 {
    ((a as bv24) << 16) | ((b as bv24) << 8) | (c as bv24)
  }

  function Join4(a: byte, b: byte, c: byte, d: byte): bv24 {
    ((a as bv24) << 18) | ((b as bv24) << 12) | ((c as bv24) << 6) | (d as bv24)
  }

  function Sextet(w: bv24, m: nat): (v: byte)
    requires m < 4
    ensures v < 64
  {
    if m == 0 then ((w >> 18) & 63) as byte
    else if m == 1 then ((w >> 12) & 63) as byte
    else if m == 2 then ((w >> 6) & 63) as byte
    else (w & 63) as byte
  }

  function Octet(w: bv24, m: nat): byte
    requires m < 3
  {
    if m == 0 then ((w >> 16) & 255) as byte
    else if m == 1 then ((w >> 8) & 255) as byte
    else (w & 255) as byte
  }

  function EncodedLength(n: nat): nat {
    (n + 2) / 3 * 4
  }

  function Group(s: seq<byte>, g: nat): bv24 {
    Join3(At(s, 3 * g), At(s, 3 * g + 1), At(s, 3 * g + 2))
  }

  /** Character k of the encoding of s. */
  function CharAt(s: seq<byte>, k: nat): byte {
    if k % 4 > |s| - 3 * (k / 4) then PAD else Symbol(Sextet(Group(s, k / 4), k % 4))
  }

  function Encoded(s: seq<byte>): (t: seq<byte>)
    ensures |t| == EncodedLength(|s|)
  {
    seq(EncodedLength(|s|), k requires 0 <= k => CharAt(s, k))
  }

  // ---------------------------------------------------------------------------
  // The encoder
  // ---------------------------------------------------------------------------

  function Carry1(a: byte): (v: byte)
    ensures v < 64
  {
    (a << 4) & 0x30
  }

  function Carry2(b: byte): (v: byte)
    ensures v < 64
  {
    (b << 2) & 0x3D
  }

  /** The sextets of a 24-bit group, cut one byte at a time with the leftover bits carried over. */
  lemma CarriedBits(a: byte, b: byte, c: byte)
    ensures Sextet(Join3(a, b, c), 0) == a >> 2
    ensures Sextet(Join3(a, b, c), 1) == Carry1(a) | (b >> 4)
    ensures Sextet(Join3(a, b, c), 2) == Carry2(b) | (c >> 6)
    ensures Sextet(Join3(a, b, c), 3) == c & 0x3F
    ensures Carry1(a) == Carry1(a) | ((0 as byte) >> 4)
    ensures Carry2(b) == Carry2(b) | ((0 as byte) >> 6)
  {
  }

  lemma CharInGroup(s: seq<byte>, g: nat, m: nat)
    requires 3 * g < |s| && m < 4
    ensures 4 * g + m < EncodedLength(|s|)
    ensures Encoded(s)[4 * g + m] == if m > |s| - 3 * g then PAD else Symbol(Sextet(Group(s, g), m))
  {
    assert (4 * g + m) / 4 == g && (4 * g + m) % 4 == m;
    assert Encoded(s)[4 * g + m] == CharAt(s, 4 * g + m);
  }

  /** The character that the first byte of group g completes. */
  lemma FirstChar(s: seq<byte>, t: seq<byte>, g: nat, v: byte)
    requires t == Encoded(s) && 3 * g < |s| && v == s[3 * g] >> 2
    ensures v < 64 && 4 * g < |t| && t[4 * g] == Symbol(v)
  {
    CharInGroup(s, g, 0);
    CarriedBits(At(s, 3 * g), At(s, 3 * g + 1), At(s, 3 * g + 2));
  }

  /** The character that the second byte of group g, or the end of input, completes. */
  lemma SecondChar(s: seq<byte>, t: seq<byte>, g: nat, v: byte)
    requires t == Encoded(s) && 3 * g < |s|
    requires v == Carry1(s[3 * g]) | (At(s, 3 * g + 1) >> 4)
    ensures v < 64 && 4 * g + 1 < |t| && t[4 * g + 1] == Symbol(v)
  {
    CharInGroup(s, g, 1);
    CarriedBits(At(s, 3 * g), At(s, 3 * g + 1), At(s, 3 * g + 2));
  }

  /** The character that the third byte of group g, or the end of input, completes. */
  lemma ThirdChar(s: seq<byte>, t: seq<byte>, g: nat, v: byte)
    requires t == Encoded(s) && 3 * g + 1 < |s|
    requires v == Carry2(s[3 * g + 1]) | (At(s, 3 * g + 2) >> 6)
    ensures v < 64 && 4 * g + 2 < |t| && t[4 * g + 2] == Symbol(v)
  {
    CharInGroup(s, g, 2);
    CarriedBits(At(s, 3 * g), At(s, 3 * g + 1), At(s, 3 * g + 2));
  }

  lemma FourthChar(s: seq<byte>, t: seq<byte>, g: nat, v: byte)
    requires t == Encoded(s) && 3 * g + 2 < |s| && v == s[3 * g + 2] & 0x3F
    ensures v < 64 && 4 * g + 3 < |t| && t[4 * g + 3] == Symbol(v)
  {
    CharInGroup(s, g, 3);
    CarriedBits(At(s, 3 * g), At(s, 3 * g + 1), At(s, 3 * g + 2));
  }

  lemma Padding(s: seq<byte>, g: nat)
    requires 0 < |s| - 3 * g <= 3
    ensures |Encoded(s)| == 4 * g + 4
    ensures forall k :: 4 * g + (|s| - 3 * g) < k < 4 * g + 4 ==> Encoded(s)[k] == PAD
  {
    forall k | 4 * g + (|s| - 3 * g) < k < 4 * g + 4
      ensures Encoded(s)[k] == PAD
    {
      CharInGroup(s, g, k - 4 * g);
    }
  }

  /** The main loop: one pass over the input, writing each character as soon as its six bits
      are known. The bits of the last byte that did not fill a character stay in `val`. */
  method EncodeBytes(input: seq<byte>, out: array<byte>, off: nat) returns (p: nat, val: byte)
    requires off + EncodedLength(|input|) <= out.Length
    modifies out
    ensures p == off + |input| / 3 * 4 + |input| % 3
    ensures |input| % 3 == 1 ==> val == Carry1(input[|input| - 1])
    ensures |input| % 3 == 2 ==> val == Carry2(input[|input| - 1])
    ensures forall k :: off <= k < p ==> out[k] == Encoded(input)[k - off]
    ensures forall k :: 0 <= k < off || p <= k < out.Length ==> out[k] == old(out[k])
  {
    hide Encoded;
    hide CharAt;
    hide Symbol;
    ghost var t := Encoded(input);
    ghost var g, m := 0, 0;
    val := 0;
    p := off;
    var i := 0;
    while i < |input|
      invariant i == 3 * g + m <= |input| && p == off + 4 * g + m && 0 <= m < 3 && 0 <= g
      invariant m == 1 ==> val == Carry1(input[i - 1])
      invariant m == 2 ==> val == Carry2(input[i - 1])
      invariant forall k :: off <= k < p ==> out[k] == t[k - off]
      invariant forall k :: 0 <= k < off || p <= k < out.Length ==> out[k] == old(out[k])
    {
      assert i % 3 == m;
      if i % 3 == 0 {
        val := input[i] >> 2;
        FirstChar(input, t, g, val);
        out[p] := Symbol(val);
        p := p + 1;
        val := input[i] << 4;
        val := val & 0x30;
        m := 1;
      } else if i % 3 == 1 {
        val := val | (input[i] >> 4);
        SecondChar(input, t, g, val);
        out[p] := Symbol(val);
        p := p + 1;
        val := input[i] << 2;
        val := val & 0x3D;
        m := 2;
      } else {
        val := val | (input[i] >> 6);
        ThirdChar(input, t, g, val);
        out[p] := Symbol(val);
        p := p + 1;
        val := input[i] & 0x3F;
        FourthChar(input, t, g, val);
        out[p] := Symbol(val);
        p := p + 1;
        g, m := g + 1, 0;
      }
      i := i + 1;
    }
    assert |input| % 3 == m;
  }

  /** Writes the encoding of `input` at out[off..off + cap]; nothing else in `out` changes.
      An empty input still writes a terminating zero, so it needs one byte of room. */
  method Encode(input: seq<byte>, out: array<byte>, off: nat, cap: nat) returns (r: int)
    requires off + cap <= out.Length
    requires input == [] ==> cap > 0
    modifies out
    ensures cap < EncodedLength(|input|) ==> r == -1 && out[..] == old(out[..])
    ensures cap >= EncodedLength(|input|) ==>
              && r == EncodedLength(|input|)
              && out[off..off + r] == Encoded(input)
    ensures input == [] ==> out[off] == 0
    ensures forall k :: 0 <= k < off || off + (if r > 0 then r else 1) <= k < out.Length ==> out[k] == old(out[k])
  {
    hide Encoded;
    hide CharAt;
    hide Symbol;
    hide Carry1;
    hide Carry2;
    var outputLen := (|input| / 3) * 4;
    if |input| % 3 != 0 {
      outputLen := outputLen + 4;
    }
    assert outputLen == EncodedLength(|input|);
    if cap < outputLen {
      return -1;
    }
    if |input| == 0 {
      out[off] := 0;
    }
    label L:
    ghost var t := Encoded(input);
    var p, val := EncodeBytes(input, out, off);
    if |input| % 3 != 0 {
      ghost var g := |input| / 3;
      if |input| % 3 == 1 {
        SecondChar(input, t, g, val);
      } else {
        ThirdChar(input, t, g, val);
      }
      Padding(input, g);
      out[p] := Symbol(val);
      p := p + 1;
    }
    while p - off < outputLen
      invariant off <= p <= off + outputLen
      invariant forall k :: p - off <= k < outputLen ==> t[k] == PAD
      invariant forall k :: off <= k < p ==> out[k] == t[k - off]
      invariant forall k :: 0 <= k < off || p <= k < out.Length ==> out[k] == old@L(out[k])
    {
      out[p] := PAD;
      p := p + 1;
    }
    r := outputLen;
    assert p == off + r;
    assert |t| == r;
    assert forall k :: 0 <= k < r ==> out[off..off + r][k] == t[k];
  }

  // ---------------------------------------------------------------------------
  // What a text stands for
  // ---------------------------------------------------------------------------

  /** How many characters of t come before the first one outside the alphabet. */
  function SymbolCount(t: seq<byte>): (n: nat)
    ensures n <= |t|
  {
    if t == [] || !InAlphabet(t[0]) then 0 else 1 + SymbolCount(t[1..])
  }

  lemma {:induction false} SymbolPrefix(t: seq<byte>)
    ensures forall k :: 0 <= k < SymbolCount(t) ==> InAlphabet(t[k])
    ensures SymbolCount(t) < |t| ==> !InAlphabet(t[SymbolCount(t)])
  {
    if t != [] && InAlphabet(t[0]) {
      SymbolPrefix(t[1..]);
      forall k | 0 <= k < SymbolCount(t)
        ensures InAlphabet(t[k])
      {
        assert k > 0 ==> t[k] == t[1..][k - 1];
      }
    }
  }

  /** Whole groups only, and padding only as the last one or two characters. */
  predicate Decodable(t: seq<byte>) {
    var n := SymbolCount(t);
    && |t| % 4 == 0
    && (n < |t| ==> t[n] == PAD && n >= |t| - 2 && t[|t| - 1] == PAD)
  }

  function Sextets(t: seq<byte>): (x: seq<byte>)
    ensures |x| == SymbolCount(t)
  {
    SymbolPrefix(t);
    seq(SymbolCount(t), k requires 0 <= k < SymbolCount(t) => Value(t[k]))
  }

  function Quad(x: seq<byte>, g: nat): bv24 {
    Join4(At(x, 4 * g), At(x, 4 * g + 1), At(x, 4 * g + 2), At(x, 4 * g + 3))
  }

  /** Sextets packed into bytes; bits that do not fill a byte are dropped. */
  function Packed(x: seq<byte>): (s: seq<byte>)
    ensures |s| == |x| * 3 / 4
  {
    seq(|x| * 3 / 4, k requires 0 <= k => Octet(Quad(x, k / 3), k % 3))
  }

  /** The bytes that the characters of t before the first foreign one stand for. */
  function Decoded(t: seq<byte>): seq<byte> {
    Packed(Sextets(t))
  }

  // ---------------------------------------------------------------------------
  // The in-place decoder
  // ---------------------------------------------------------------------------

  function Rest1(a: byte): byte { (a << 2) & 0xFD }

  function Rest2(b: byte): byte { (b << 4) & 0xF0 }

  function Rest3(c: byte): byte { (c << 6) & 0xD0 }

  /** The bytes of four sextets, put together one sextet at a time with bits carried over. */
  lemma JoinedBits(a: byte, b: byte, c: byte, d: byte)
    requires a < 64 && b < 64 && c < 64 && d < 64
    ensures Octet(Join4(a, b, c, d), 0) == Rest1(a) | (b >> 4)
    ensures Octet(Join4(a, b, c, d), 1) == Rest2(b) | (c >> 2)
    ensures Octet(Join4(a, b, c, d), 2) == Rest3(c) | d
  {
  }

  ghost predicate Sixes(x: seq<byte>) {
    forall k :: 0 <= k < |x| ==> x[k] < 64
  }

  lemma OctetInGroup(x: seq<byte>, g: nat, m: nat)
    requires m < 3 && 4 * g + m + 1 < |x|
    ensures 3 * g + m < |Packed(x)| && Packed(x)[3 * g + m] == Octet(Quad(x, g), m)
  {
    assert (3 * g + m) / 3 == g && (3 * g + m) % 3 == m;
  }

  lemma FirstOctet(x: seq<byte>, g: nat, v: byte)
    requires Sixes(x) && 4 * g + 1 < |x| && v == Rest1(x[4 * g]) | (x[4 * g + 1] >> 4)
    ensures 3 * g < |Packed(x)| && Packed(x)[3 * g] == v
  {
    OctetInGroup(x, g, 0);
    JoinedBits(At(x, 4 * g), At(x, 4 * g + 1), At(x, 4 * g + 2), At(x, 4 * g + 3));
  }

  lemma SecondOctet(x: seq<byte>, g: nat, v: byte)
    requires Sixes(x) && 4 * g + 2 < |x| && v == Rest2(x[4 * g + 1]) | (x[4 * g + 2] >> 2)
    ensures 3 * g + 1 < |Packed(x)| && Packed(x)[3 * g + 1] == v
  {
    OctetInGroup(x, g, 1);
    JoinedBits(At(x, 4 * g), At(x, 4 * g + 1), At(x, 4 * g + 2), At(x, 4 * g + 3));
  }

  lemma ThirdOctet(x: seq<byte>, g: nat, v: byte)
    requires Sixes(x) && 4 * g + 3 < |x| && v == Rest3(x[4 * g + 2]) | x[4 * g + 3]
    ensures 3 * g + 2 < |Packed(x)| && Packed(x)[3 * g + 2] == v
  {
    OctetInGroup(x, g, 2);
    JoinedBits(At(x, 4 * g), At(x, 4 * g + 1), At(x, 4 * g + 2), At(x, 4 * g + 3));
  }

  lemma SymbolCountIs(t: seq<byte>, n: nat)
    requires n <= |t| && (forall k :: 0 <= k < n ==> InAlphabet(t[k]))
    requires n < |t| ==> !InAlphabet(t[n])
    ensures SymbolCount(t) == n
  {
    SymbolPrefix(t);
    var c := SymbolCount(t);
    forall k | 0 <= k < n ensures InAlphabet(t[k]) && k != c {
    }
    forall k | 0 <= k < c ensures InAlphabet(t[k]) && k != n {
    }
  }

  /** The reverse mapping, with the source's range tests and offsets; None outside the alphabet. */
  method ReverseMap(c: byte) returns (v: Option<byte>)
    ensures v.Some? <==> InAlphabet(c)
    ensures v.Some? ==> v.value == Value(c)
  {
    if 65 <= c && c <= 90 {
      return Some(c - 65);
    } else if 97 <= c && c <= 122 {
      return Some(c - 71);
    } else if 48 <= c && c <= 57 {
      return Some(c + 4);
    } else if c == 43 {
      return Some(62);
    } else if c == 47 {
      return Some(63);
    }
    return None;
  }

  /** Reads character i, which must still be in place, as the next sextet of the text. */
  method ReadSextet(str: array<byte>, i: nat, ghost t: seq<byte>) returns (v: Option<byte>)
    requires i < str.Length == |t| && str[i] == t[i] && i <= SymbolCount(t)
    ensures v.Some? <==> i < SymbolCount(t)
    ensures v.Some? ==> v.value == Sextets(t)[i] && v.value < 64
  {
    v := ReverseMap(str[i]);
    SymbolPrefix(t);
  }

  lemma SextetsAreSixBits(t: seq<byte>)
    ensures Sixes(Sextets(t))
  {
    SymbolPrefix(t);
  }

  /** The state of the decoding loop before character 4 * g + m: the bytes written so far, and
      the text after them still in place. */
  ghost predicate Decoding(t: seq<byte>, x: seq<byte>, str: array<byte>, g: nat, m: nat, j: nat)
    reads str
  {
    && m < 4 && 4 * g + m <= |x| && |t| == str.Length
    && j == 3 * g + (if m == 0 then 0 else m - 1) <= |Packed(x)| <= |t|
    && str[..j] == Packed(x)[..j]
    && str[j..] == t[j..]
  }

  /** The bits carried over from character 4 * g + m - 1. */
  ghost predicate Carried(x: seq<byte>, g: nat, m: nat, v: byte) {
    && 4 * g + m <= |x|
    && (m == 1 ==> v == Rest1(x[4 * g]))
    && (m == 2 ==> v == Rest2(x[4 * g + 1]))
    && (m == 3 ==> v == Rest3(x[4 * g + 2]))
  }

  lemma StillInPlace(t: seq<byte>, x: seq<byte>, str: array<byte>, g: nat, m: nat, j: nat)
    requires Decoding(t, x, str, g, m, j) && |x| <= |t|
    ensures str[4 * g + m..] == t[4 * g + m..]
    ensures 4 * g + m < |t| ==> str[4 * g + m] == t[4 * g + m]
  {
    var i := 4 * g + m;
    assert str[i..] == str[j..][i - j..] == t[j..][i - j..] == t[i..];
    assert i < |t| ==> str[i] == str[i..][0] && t[i] == t[i..][0];
  }

  /** str[j++] = c, where c is the next decoded byte. */
  method Put(str: array<byte>, j: nat, c: byte, ghost target: seq<byte>, ghost t: seq<byte>) returns (next: nat)
    requires j < |target| && j < str.Length == |t|
    requires str[..j] == target[..j] && target[j] == c && str[j..] == t[j..]
    modifies str
    ensures next == j + 1
    ensures str[..next] == target[..next] && str[next..] == t[next..]
  {
    str[j] := c;
    next := j + 1;
  }

  /** The part of a loop turn that places x[i], the six bits of character i == 4 * g + m. */
  method PlaceSextet(ghost x: seq<byte>, ghost t: seq<byte>, str: array<byte>, i: nat, valS: byte, j0: nat, valC0: byte,
                     ghost g: nat, ghost m: nat)
    returns (j: nat, valC: byte)
    requires m < 4 && i == 4 * g + m < |x| && Sixes(x) && valS == x[i]
    requires Decoding(t, x, str, g, m, j0) && Carried(x, g, m, valC0)
    modifies str
    ensures m == 0 ==> valC == Rest1(valS)
    ensures m == 1 ==> valC == Rest2(valS)
    ensures m == 2 ==> valC == Rest3(valS)
    ensures j == (if m == 0 then j0 else j0 + 1) <= |Packed(x)|
    ensures str[..j] == Packed(x)[..j] && str[j..] == t[j..]
  {
    j, valC := j0, valC0;
    assert i % 4 == m;
    if i % 4 == 0 {
      valC := valS << 2;
      valC := valC & 0xFD;
    } else if i % 4 == 1 {
      valC := valC | (valS >> 4);
      FirstOctet(x, g, valC);
      j := Put(str, j, valC, Packed(x), t);
      valC := valS << 4;
      valC := valC & 0xF0;
    } else if i % 4 == 2 {
      valC := valC | (valS >> 2);
      SecondOctet(x, g, valC);
      j := Put(str, j, valC, Packed(x), t);
      valC := valS << 6;
      valC := valC & 0xD0;
    } else {
      valC := valC | valS;
      ThirdOctet(x, g, valC);
      j := Put(str, j, valC, Packed(x), t);
    }
  }

  /** The tests made at a character outside the alphabet: padding, as one of the last two. */
  method EndsText(str: array<byte>, i: nat, ghost t: seq<byte>) returns (ok: bool)
    requires i < str.Length == |t| && str[i..] == t[i..]
    requires SymbolCount(t) == i && |t| % 4 == 0
    ensures ok <==> Decodable(t)
  {
    assert forall k :: i <= k < |t| ==> str[k] == str[i..][k - i] == t[k];
    if str[i] == PAD {
      if i < str.Length - 2 {
        return false;
      }
      if i == str.Length - 2 && str[i + 1] != PAD {
        return false;
      }
      return true;
    }
    return false;
  }

  /** The main loop: up to the first character outside the alphabet, which must be padding. */
  method DecodeSymbols(str: array<byte>) returns (ok: bool, j: nat)
    requires str.Length % 4 == 0
    modifies str
    ensures ok <==> Decodable(old(str[..]))
    ensures j == |Decoded(old(str[..]))| <= str.Length
    ensures str[..j] == Decoded(old(str[..])) && str[j..] == old(str[..])[j..]
  {
    hide Packed;
    hide SymbolCount;
    hide Decodable;
    hide Carried;
    var len := str.Length;
    ghost var t := str[..];
    ghost var x := Sextets(t);
    SextetsAreSixBits(t);
    ghost var g: nat, m: nat := 0, 0;
    var i: nat := 0;
    var valC: byte := 0;
    j := 0;
    StartDecoding(t, x, str);
    hide Decoding;
    hide Sextets;
    while i < len
      invariant i == 4 * g + m <= len && m < 4
      invariant Decoding(t, x, str, g, m, j) && Carried(x, g, m, valC)
    {
      StillInPlace(t, x, str, g, m, j);
      var mapped := ReadSextet(str, i, t);
      if mapped.None? {
        ok := EndsText(str, i, t);
        EndDecoding(t, x, str, g, m, j);
        return ok, j;
      }
      ghost var was := j;
      DecodingLengths(t, x, str, g, m, j);
      j, valC := PlaceSextet(x, t, str, i, mapped.value, j, valC, g, m);
      NextDecoding(t, x, str, g, m, was, j, valC);
      i := i + 1;
      g, m := if m == 3 then g + 1 else g, if m == 3 then 0 else m + 1;
    }
    EndDecoding(t, x, str, g, m, j);
    return true, j;
  }

  lemma DecodingLengths(t: seq<byte>, x: seq<byte>, str: array<byte>, g: nat, m: nat, j: nat)
    requires Decoding(t, x, str, g, m, j)
    ensures |t| == str.Length && |Packed(x)| <= |t| && j == 3 * g + if m == 0 then 0 else m - 1
  {
  }

  lemma NextDecoding(t: seq<byte>, x: seq<byte>, str: array<byte>, g: nat, m: nat, was: nat, j: nat, valC: byte)
    requires m < 4 && 4 * g + m < |x| && was == 3 * g + (if m == 0 then 0 else m - 1)
    requires j == (if m == 0 then was else was + 1) <= |Packed(x)| <= |t| == str.Length
    requires str[..j] == Packed(x)[..j] && str[j..] == t[j..]
    requires m == 0 ==> valC == Rest1(x[4 * g])
    requires m == 1 ==> valC == Rest2(x[4 * g + 1])
    requires m == 2 ==> valC == Rest3(x[4 * g + 2])
    ensures var next := if m == 3 then 0 else m + 1;
      var group := if m == 3 then g + 1 else g;
      Decoding(t, x, str, group, next, j) && Carried(x, group, next, valC)
  {
    hide Packed;
  }

  lemma StartDecoding(t: seq<byte>, x: seq<byte>, str: array<byte>)
    requires x == Sextets(t) && str[..] == t
    ensures Decoding(t, x, str, 0, 0, 0) && Carried(x, 0, 0, 0)
  {
  }

  /** At the end of the text, or at a character outside the alphabet. */
  lemma EndDecoding(t: seq<byte>, x: seq<byte>, str: array<byte>, g: nat, m: nat, j: nat)
    requires x == Sextets(t) && Decoding(t, x, str, g, m, j) && |t| % 4 == 0
    requires 4 * g + m == |x| && (|x| < |t| || m == 0)
    ensures j == |Decoded(t)| && str[..j] == Decoded(t) && str[j..] == t[j..]
    ensures |x| == |t| ==> Decodable(t)
  {
  }

  /** Decodes `str` over itself. Character i is always read while it still holds the text:
      at most three bytes are written for every four characters read. */
  method Decode(str: array<byte>) returns (r: int)
    modifies str
    ensures Decodable(old(str[..])) ==>
              && r == |Decoded(old(str[..]))|
              && str[..r] == Decoded(old(str[..]))
              && forall k :: r <= k < str.Length ==> str[k] == 0
    ensures !Decodable(old(str[..])) ==>
              && r == -1
              && var n := if str.Length % 4 == 0 then |Decoded(old(str[..]))| else 0;
                 && str[..n] == Decoded(old(str[..]))[..n]
                 && str[n..] == old(str[..])[n..]
  {
    if str.Length % 4 != 0 {
      return -1;
    }
    ghost var b := Decoded(str[..]);
    var ok, j := DecodeSymbols(str);
    if !ok {
      return -1;
    }
    for k := j to str.Length
      invariant str[..j] == b
      invariant forall q :: j <= q < k ==> str[q] == 0
    {
      str[k] := 0;
    }
    return j;
  }

  // ---------------------------------------------------------------------------
  // Encoding and decoding undo each other
  // ---------------------------------------------------------------------------

  lemma OctetsOfJoin3(a: byte, b: byte, c: byte)
    ensures var w := Join3(a, b, c);
            && Join4(Sextet(w, 0), Sextet(w, 1), Sextet(w, 2), Sextet(w, 3)) == w
            && Octet(w, 0) == a && Octet(w, 1) == b && Octet(w, 2) == c
    ensures b == 0 && c == 0 ==> Sextet(Join3(a, b, c), 2) == 0
    ensures c == 0 ==> Sextet(Join3(a, b, c), 3) == 0
  {
  }

  /** The number of characters of an encoding that are not padding. */
  function SymbolsFor(n: nat): nat {
    n / 3 * 4 + (if n % 3 == 0 then 0 else n % 3 + 1)
  }

  lemma EncodedSymbol(s: seq<byte>, k: nat)
    requires k < EncodedLength(|s|)
    ensures k < SymbolsFor(|s|) ==>
              && InAlphabet(Encoded(s)[k])
              && Value(Encoded(s)[k]) == Sextet(Group(s, k / 4), k % 4)
    ensures k >= SymbolsFor(|s|) ==> Encoded(s)[k] == PAD
  {
    if k < SymbolsFor(|s|) {
      ValueOfSymbol(Sextet(Group(s, k / 4), k % 4));
    }
  }

  lemma SextetsOfEncoded(s: seq<byte>)
    ensures SymbolCount(Encoded(s)) == SymbolsFor(|s|) <= EncodedLength(|s|)
    ensures forall k :: 0 <= k < SymbolsFor(|s|) ==> Sextets(Encoded(s))[k] == Sextet(Group(s, k / 4), k % 4)
  {
    var t := Encoded(s);
    forall k | 0 <= k < |t|
      ensures k < SymbolsFor(|s|) ==> InAlphabet(t[k]) && Value(t[k]) == Sextet(Group(s, k / 4), k % 4)
      ensures k >= SymbolsFor(|s|) ==> t[k] == PAD
    {
      EncodedSymbol(s, k);
    }
    SymbolCountIs(t, SymbolsFor(|s|));
  }

  lemma OctetOfGroup(s: seq<byte>, g: nat, m: nat)
    requires m < 3
    ensures Octet(Group(s, g), m) == At(s, 3 * g + m)
  {
    OctetsOfJoin3(At(s, 3 * g), At(s, 3 * g + 1), At(s, 3 * g + 2));
  }

  /** Sextets cut from the groups of s rejoin to those groups. */
  lemma QuadOfGroup(s: seq<byte>, x: seq<byte>, g: nat)
    requires |x| == SymbolsFor(|s|) && 3 * g < |s|
    requires forall k :: 0 <= k < |x| ==> x[k] == Sextet(Group(s, k / 4), k % 4)
    ensures Quad(x, g) == Group(s, g)
  {
    var w := Group(s, g);
    OctetsOfJoin3(At(s, 3 * g), At(s, 3 * g + 1), At(s, 3 * g + 2));
    assert (4 * g) / 4 == g && (4 * g) % 4 == 0;
    assert (4 * g + 1) / 4 == g && (4 * g + 1) % 4 == 1;
    assert (4 * g + 2) / 4 == g && (4 * g + 2) % 4 == 2;
    assert (4 * g + 3) / 4 == g && (4 * g + 3) % 4 == 3;
    assert At(x, 4 * g) == Sextet(w, 0);
    assert At(x, 4 * g + 1) == Sextet(w, 1);
    assert At(x, 4 * g + 2) == Sextet(w, 2);
    assert At(x, 4 * g + 3) == Sextet(w, 3);
  }

  lemma PackedSextets(s: seq<byte>, x: seq<byte>)
    requires |x| == SymbolsFor(|s|)
    requires forall k :: 0 <= k < |x| ==> x[k] == Sextet(Group(s, k / 4), k % 4)
    ensures Packed(x) == s
  {
    assert |Packed(x)| == |s|;
    forall i | 0 <= i < |s|
      ensures Packed(x)[i] == s[i]
    {
      var g, m := i / 3, i % 3;
      OctetInGroup(x, g, m);
      QuadOfGroup(s, x, g);
      OctetOfGroup(s, g, m);
    }
  }

  lemma PaddingLength(n: nat)
    ensures EncodedLength(n) % 4 == 0
    ensures EncodedLength(n) - 2 <= SymbolsFor(n) <= EncodedLength(n)
  {
  }

  /** Decoding what was encoded gives the bytes back, for every byte string. */
  lemma DecodeOfEncode(s: seq<byte>)
    ensures Decodable(Encoded(s)) && Decoded(Encoded(s)) == s
  {
    var t := Encoded(s);
    PaddingLength(|s|);
    SextetsOfEncoded(s);
    PackedSextets(s, Sextets(t));
    if SymbolsFor(|s|) < |t| {
      EncodedSymbol(s, SymbolsFor(|s|));
      EncodedSymbol(s, |t| - 1);
    }
  }

  predicate NoStrayBits(x: seq<byte>) {
    && (|x| % 4 == 2 ==> x[|x| - 1] & 15 == 0)
    && (|x| % 4 == 3 ==> x[|x| - 1] & 3 == 0)
  }

  /** The bits of the last character that no byte takes are zero. */
  predicate Canonical(t: seq<byte>) {
    NoStrayBits(Sextets(t))
  }

  lemma SextetsOfFullGroup(a: byte, b: byte, c: byte, d: byte)
    requires a < 64 && b < 64 && c < 64 && d < 64
    ensures var w := Join4(a, b, c, d);
            Join3(Octet(w, 0), Octet(w, 1), Octet(w, 2)) == w
            && Sextet(w, 0) == a && Sextet(w, 1) == b && Sextet(w, 2) == c && Sextet(w, 3) == d
  {
  }

  lemma SextetsOfTwoBytes(a: byte, b: byte, c: byte)
    requires a < 64 && b < 64 && c < 64
    ensures var w := Join4(a, b, c, 0);
            var v := Join3(Octet(w, 0), Octet(w, 1), 0);
            && Sextet(v, 0) == a
            && Sextet(v, 1) == b
            && (Sextet(v, 2) == c <==> c & 3 == 0)
  {
    TwoBytesStart(a, b, c);
    TwoBytesEnd(a, b, c);
    hide Sextet;
    hide Octet;
    hide Join3;
    hide Join4;
  }

  lemma TwoBytesStart(a: byte, b: byte, c: byte)
    requires a < 64 && b < 64 && c < 64
    ensures var w := Join4(a, b, c, 0);
            var v := Join3(Octet(w, 0), Octet(w, 1), 0);
            Sextet(v, 0) == a && Sextet(v, 1) == b
  {
  }

  lemma TwoBytesEnd(a: byte, b: byte, c: byte)
    requires a < 64 && b < 64 && c < 64
    ensures var w := Join4(a, b, c, 0);
            var v := Join3(Octet(w, 0), Octet(w, 1), 0);
            Sextet(v, 2) == c <==> c & 3 == 0
  {
  }

  lemma SextetsOfOneByte(a: byte, b: byte)
    requires a < 64 && b < 64
    ensures var w := Join4(a, b, 0, 0);
            var v := Join3(Octet(w, 0), 0, 0);
            && Sextet(v, 0) == a
            && (Sextet(v, 1) == b <==> b & 15 == 0)
  {
  }

  lemma GroupIs(x: seq<byte>, g: nat)
    requires 4 * g + 1 < |x|
    ensures var w := Join4(x[4 * g], x[4 * g + 1], At(x, 4 * g + 2), At(x, 4 * g + 3));
      Group(Packed(x), g) ==
        Join3(Octet(w, 0), if 4 * g + 2 < |x| then Octet(w, 1) else 0, if 4 * g + 3 < |x| then Octet(w, 2) else 0)
  {
    hide Octet;
    hide Join3;
    hide Join4;
    OctetInGroup(x, g, 0);
    if 4 * g + 2 < |x| {
      OctetInGroup(x, g, 1);
    }
    if 4 * g + 3 < |x| {
      OctetInGroup(x, g, 2);
    }
  }

  /** The groups of bytes once packed: the same 24 bits, except where the last group lost some. */
  lemma GroupOfPacked(x: seq<byte>, g: nat)
    requires Sixes(x) && 4 * g + 1 < |x|
    ensures var s := Packed(x);
            && Sextet(Group(s, g), 0) == x[4 * g]
            && (4 * g + 2 < |x| ==> Sextet(Group(s, g), 1) == x[4 * g + 1])
            && (4 * g + 3 < |x| ==> Sextet(Group(s, g), 2) == x[4 * g + 2] && Sextet(Group(s, g), 3) == x[4 * g + 3])
            && (4 * g + 2 == |x| ==> (Sextet(Group(s, g), 1) == x[4 * g + 1] <==> x[4 * g + 1] & 15 == 0))
            && (4 * g + 3 == |x| ==> (Sextet(Group(s, g), 2) == x[4 * g + 2] <==> x[4 * g + 2] & 3 == 0))
  {
    hide Sextet;
    hide Octet;
    hide Join3;
    hide Join4;
    GroupIs(x, g);
    hide Packed;
    hide Group;
    if 4 * g + 2 == |x| {
      SextetsOfOneByte(x[4 * g], x[4 * g + 1]);
    } else if 4 * g + 3 == |x| {
      SextetsOfTwoBytes(x[4 * g], x[4 * g + 1], x[4 * g + 2]);
    } else {
      SextetsOfFullGroup(x[4 * g], x[4 * g + 1], x[4 * g + 2], x[4 * g + 3]);
    }
  }

  lemma DecodableLengths(t: seq<byte>)
    requires Decodable(t)
    ensures |Sextets(t)| % 4 != 1
    ensures EncodedLength(|Decoded(t)|) == |t|
    ensures SymbolsFor(|Decoded(t)|) == |Sextets(t)|
  {
    var q, r := |t| / 4, |t| - |Sextets(t)|;
    assert |t| == 4 * q && 0 <= r <= 2;
    assert |Decoded(t)| == 3 * q - r;
  }

  lemma SextetOfPacked(x: seq<byte>, k: nat)
    requires Sixes(x) && k < |x| && |x| % 4 != 1
    ensures Sextet(Group(Packed(x), k / 4), k % 4) == x[k] <==> (k == |x| - 1 ==> NoStrayBits(x))
  {
    hide Sextet;
    hide Group;
    hide Packed;
    var g, m := k / 4, k % 4;
    assert k == 4 * g + m;
    assert 4 * g + 1 < |x|;
    GroupOfPacked(x, g);
  }

  lemma EncodedChar(t: seq<byte>, k: nat)
    requires Decodable(t) && k < |t|
    ensures k < |Encoded(Decoded(t))|
    ensures Encoded(Decoded(t))[k] == t[k] <==> (k == |Sextets(t)| - 1 ==> Canonical(t))
  {
    DecodableLengths(t);
    EncodedSymbol(Decoded(t), k);
    SymbolPrefix(t);
    SextetsAreSixBits(t);
    if k < |Sextets(t)| {
      SextetOfPacked(Sextets(t), k);
      assert t[k] == Symbol(Sextets(t)[k]);
    }
  }

  /** Encoding what was decoded gives the text back exactly when the text is canonical. */
  lemma EncodeOfDecode(t: seq<byte>)
    requires Decodable(t)
    ensures Encoded(Decoded(t)) == t <==> Canonical(t)
  {
    var e := Encoded(Decoded(t));
    DecodableLengths(t);
    if Canonical(t) {
      forall k | 0 <= k < |t|
        ensures e[k] == t[k]
      {
        EncodedChar(t, k);
      }
    } else {
      EncodedChar(t, |Sextets(t)| - 1);
    }
  }
}
