/** Base64 (taglib_mod/toolkit/tbytevector.cpp, toBase64 and fromBase64; section 4 of RFC 4648). */
module Base64 {
  import opened Bytes

  const PAD: byte := 61
  const INVALID: byte := 0x80

  /** The alphabet: `A` to `Z`, `a` to `z`, `0` to `9`, `+`, `/` */
  function Char(v: byte): byte {
    if v < 26 then v + 65 else if v < 52 then v + 71 else if v < 62 then v - 4 else if v == 62 then 43 else 47
  }

  /** The decoding table: the place of a character in the alphabet */
  function Value(c: byte): byte {
    if 65 <= c <= 90 then c - 65
    else if 97 <= c <= 122 then c - 71
    else if 48 <= c <= 57 then c + 4
    else if c == 43 then 62
    else if c == 47 then 63
    else INVALID
  }

  /** The alphabet begins with `A` and goes on character by character, with four leaps: from `Z` to `a`, from `z`
      to `0`, from `9` to `+` and from there to `/`. */
  lemma AlphabetInOrder(v: byte)
    requires v < 63
    ensures Char(0) as char == 'A' && Char(25) as char == 'Z' && Char(51) as char == 'z' && Char(61) as char == '9'
    ensures
      Char(v + 1) as char ==
      if v == 25 then 'a' else if v == 51 then '0' else if v == 61 then '+' else if v == 62 then '/'
      else (Char(v) + 1) as char
  {
  }

  lemma CharHasValue(v: byte)
    requires v < 64
    ensures Value(Char(v)) == v && Char(v) != PAD
  {
  }

  lemma ValueHasChar(c: byte)
    requires Value(c) != INVALID
    ensures Value(c) < 64 && Char(Value(c)) == c && c != PAD
  {
  }

  // ----- Six bits of eight, and back -----

  function Six0(a: byte): byte {
    (a >> 2) & 0x3f
  }

  function Six1(a: byte, b: byte): byte {
    ((a & 0x03) << 4) | ((b >> 4) & 0x0f)
  }

  function Six2(b: byte, c: byte): byte {
    ((b & 0x0f) << 2) | ((c >> 6) & 0x03)
  }

  function Six3(c: byte): byte {
    c & 0x3f
  }

  function Eight0(v: byte, w: byte): byte {
    ((v << 2) & 0xfc) | ((w >> 4) & 0x03)
  }

  function Eight1(w: byte, x: byte): byte {
    ((w & 0x0f) << 4) | ((x >> 2) & 0x0f)
  }

  function Eight2(x: byte, y: byte): byte {
    ((x & 0x03) << 6) | (y & 0x3f)
  }

  /** Four sixes give back the three bytes they were cut from, also when the last are missing. */
  lemma SixesGiveBytes(a: byte, b: byte, c: byte)
    ensures Six0(a) < 64 && Six1(a, b) < 64 && Six2(b, c) < 64 && Six3(c) < 64
    ensures Eight0(Six0(a), Six1(a, b)) == a && Eight1(Six1(a, b), Six2(b, c)) == b && Eight2(Six2(b, c), Six3(c)) == c
  {
  }

  /** The four sixes are the digits of the number that the three bytes are, from the highest on. */
  lemma SixesAreDigits(a: byte, b: byte, c: byte)
    ensures
      (Six0(a) as bv32 << 18) | (Six1(a, b) as bv32 << 12) | (Six2(b, c) as bv32 << 6) | Six3(c) as bv32 ==
      (a as bv32 << 16) | (b as bv32 << 8) | c as bv32
  {
  }

  /** Three bytes put together from sixes are cut into the same sixes again. */
  lemma BytesGiveSixes(v: byte, w: byte, x: byte, y: byte)
    requires v < 64 && w < 64 && x < 64 && y < 64
    ensures Six0(Eight0(v, w)) == v && Six1(Eight0(v, w), Eight1(w, x)) == w
    ensures Six2(Eight1(w, x), Eight2(x, y)) == x && Six3(Eight2(x, y)) == y
    ensures Six1(Eight0(v, w), 0) == w <==> w & 0x0f == 0
    ensures Six2(Eight1(w, x), 0) == x <==> x & 0x03 == 0
  {
  }

  // ----- The encoding -----

  function Group(a: byte, b: byte, c: byte): seq<byte> {
    [Char(Six0(a)), Char(Six1(a, b)), Char(Six2(b, c)), Char(Six3(c))]
  }

  function LastOfTwo(a: byte, b: byte): seq<byte> {
    [Char(Six0(a)), Char(Six1(a, b)), Char(Six2(b, 0)), PAD]
  }

  function LastOfOne(a: byte): seq<byte> {
    [Char(Six0(a)), Char(Six1(a, 0)), PAD, PAD]
  }

  function Encode(x: seq<byte>): (r: seq<byte>)
    ensures |r| == 4 * ((|x| + 2) / 3)
  {
    if |x| == 0 then []
    else if |x| == 1 then LastOfOne(x[0])
    else if |x| == 2 then LastOfTwo(x[0], x[1])
    else Group(x[0], x[1], x[2]) + Encode(x[3..])
  }

  /** What decoding gives: padding ends the data, in its third place whatever the fourth is; None for a
      character outside the alphabet, for anything after padding and for an incomplete group. */
  function Decode(s: seq<byte>): Option<seq<byte>> {
    if s == [] then Some([])
    else if |s| < 4 || Value(s[0]) == INVALID || Value(s[1]) == INVALID then None
    else
      var a := Eight0(Value(s[0]), Value(s[1]));
      if s[2] == PAD then (if |s| == 4 then Some([a]) else None)
      else if Value(s[2]) == INVALID then None
      else
        var b := Eight1(Value(s[1]), Value(s[2]));
        if s[3] == PAD then (if |s| == 4 then Some([a, b]) else None)
        else if Value(s[3]) == INVALID then None
        else
          var rest := Decode(s[4..]);
          if rest.None? then None else Some([a, b, Eight2(Value(s[2]), Value(s[3]))] + rest.value)
  }

  lemma {:induction false} DecodeEncode(x: seq<byte>)
    ensures Decode(Encode(x)) == Some(x)
  {
    hide Char, Value, Six0, Six1, Six2, Six3, Eight0, Eight1, Eight2;
    if |x| == 0 {
    } else {
      var a, b, c := x[0], if |x| > 1 then x[1] else 0, if |x| > 2 then x[2] else 0;
      SixesGiveBytes(a, b, c);
      CharHasValue(Six0(a));
      CharHasValue(Six1(a, b));
      CharHasValue(Six2(b, c));
      CharHasValue(Six3(c));
      if |x| == 1 {
        assert x == [a];
      } else if |x| == 2 {
        assert x == [a, b];
      } else {
        DecodeEncode(x[3..]);
        var s := Encode(x);
        assert s[4..] == Encode(x[3..]);
        assert x == [a, b, c] + x[3..];
      }
    }
  }

  /** `fromBase64` answers a failure with no bytes. */
  function Decoded(s: seq<byte>): seq<byte> {
    if Decode(s).Some? then Decode(s).value else []
  }

  lemma RoundTrip(x: seq<byte>)
    ensures Decoded(Encode(x)) == x && |Encode(x)| == 4 * ((|x| + 2) / 3)
  {
    DecodeEncode(x);
  }

  /** Padding is complete, and the bits that padding leaves over are zero. */
  predicate Canonical(s: seq<byte>) {
    if |s| < 4 then s == []
    else if s[2] == PAD then s[3] == PAD && Value(s[1]) & 0x0f == 0
    else if s[3] == PAD then Value(s[2]) & 0x03 == 0
    else Canonical(s[4..])
  }

  lemma CharIs(c: byte, v: byte)
    requires Value(c) != INVALID && v < 64
    ensures Char(v) == c <==> v == Value(c)
  {
    CharHasValue(v);
    ValueHasChar(c);
  }

  lemma SixesAreSmall(a: byte, b: byte, c: byte)
    ensures Six0(a) < 64 && Six1(a, b) < 64 && Six2(b, c) < 64 && Six3(c) < 64
  {
  }

  /** A group of four from the alphabet is what its three bytes encode to. */
  lemma GroupBack(s: seq<byte>)
    requires |s| >= 4 && Value(s[0]) != INVALID && Value(s[1]) != INVALID && Value(s[2]) != INVALID &&
        Value(s[3]) != INVALID
    ensures
      var v, w, x, y := Value(s[0]), Value(s[1]), Value(s[2]), Value(s[3]);
      Group(Eight0(v, w), Eight1(w, x), Eight2(x, y)) == s[..4]
  {
    hide Char, Value, Six0, Six1, Six2, Six3, Eight0, Eight1, Eight2;
    ValueHasChar(s[0]);
    ValueHasChar(s[1]);
    ValueHasChar(s[2]);
    ValueHasChar(s[3]);
    BytesGiveSixes(Value(s[0]), Value(s[1]), Value(s[2]), Value(s[3]));
  }

  lemma OneBack(s: seq<byte>)
    requires |s| == 4 && Value(s[0]) != INVALID && Value(s[1]) != INVALID && s[2] == PAD
    ensures LastOfOne(Eight0(Value(s[0]), Value(s[1]))) == s <==> s[3] == PAD && Value(s[1]) & 0x0f == 0
  {
    hide Char, Value, Six0, Six1, Six2, Six3, Eight0, Eight1, Eight2;
    var a := Eight0(Value(s[0]), Value(s[1]));
    ValueHasChar(s[0]);
    ValueHasChar(s[1]);
    BytesGiveSixes(Value(s[0]), Value(s[1]), 0, 0);
    SixesAreSmall(a, 0, 0);
    CharIs(s[1], Six1(a, 0));
    var t := LastOfOne(a);
    assert t == s <==> t[1] == s[1] && t[3] == s[3];
  }

  lemma TwoBack(s: seq<byte>)
    requires |s| == 4 && Value(s[0]) != INVALID && Value(s[1]) != INVALID && Value(s[2]) != INVALID && s[3] == PAD
    ensures
      var v, w, x := Value(s[0]), Value(s[1]), Value(s[2]);
      LastOfTwo(Eight0(v, w), Eight1(w, x)) == s <==> x & 0x03 == 0
  {
    hide Char, Value, Six0, Six1, Six2, Six3, Eight0, Eight1, Eight2;
    var v, w, x := Value(s[0]), Value(s[1]), Value(s[2]);
    ValueHasChar(s[0]);
    ValueHasChar(s[1]);
    ValueHasChar(s[2]);
    BytesGiveSixes(v, w, x, 0);
    SixesAreSmall(Eight0(v, w), Eight1(w, x), 0);
    CharIs(s[2], Six2(Eight1(w, x), 0));
    var t := LastOfTwo(Eight0(v, w), Eight1(w, x));
    assert t == s <==> t[2] == s[2];
  }

  /** Of the inputs that decode, exactly the canonical ones are encodings. */
  lemma {:induction false} EncodeDecode(s: seq<byte>)
    requires Decode(s).Some?
    ensures Encode(Decode(s).value) == s <==> Canonical(s)
  {
    hide Char, Value, Six0, Six1, Six2, Six3, Eight0, Eight1, Eight2, Group, LastOfOne, LastOfTwo;
    if s == [] {
    } else if s[2] == PAD {
      OneBack(s);
    } else if s[3] == PAD {
      TwoBack(s);
    } else {
      EncodeDecode(s[4..]);
      GroupBack(s);
      var r := Decode(s).value;
      assert r[3..] == Decode(s[4..]).value;
    }
  }

  // ----- The loops -----

  /** Four characters to a place in the output; what stands before stays. */
  method Put(output: array<byte>, dst: nat, c0: byte, c1: byte, c2: byte, c3: byte)
    requires dst + 4 <= output.Length
    modifies output
    ensures output[..dst + 4] == old(output[..dst]) + [c0, c1, c2, c3]
  {
    output[dst] := c0;
    output[dst + 1] := c1;
    output[dst + 2] := c2;
    output[dst + 3] := c3;
  }

  lemma EncodeGroup(x: seq<byte>, src: nat)
    requires src + 3 <= |x|
    ensures Encode(x[src..]) == Group(x[src], x[src + 1], x[src + 2]) + Encode(x[src + 3..])
  {
    hide Group;
    assert x[src..][3..] == x[src + 3..];
  }

  lemma EncodeRest(x: seq<byte>, src: nat)
    requires src <= |x| <= src + 2
    ensures |x| == src ==> Encode(x[src..]) == []
    ensures |x| == src + 1 ==> Encode(x[src..]) == LastOfOne(x[src])
    ensures |x| == src + 2 ==> Encode(x[src..]) == LastOfTwo(x[src], x[src + 1])
  {
    hide LastOfOne, LastOfTwo;
  }

  lemma Groups(a: byte, b: byte, c: byte)
    ensures Group(a, b, c) == [Char(Six0(a)), Char(Six1(a, b)), Char(Six2(b, c)), Char(Six3(c))]
    ensures LastOfOne(a) == [Char(Six0(a)), Char(Six1(a, 0)), PAD, PAD]
    ensures LastOfTwo(a, b) == [Char(Six0(a)), Char(Six1(a, b)), Char(Six2(b, 0)), PAD]
  {
  }

  method ToBase64(x: seq<byte>) returns (output: array<byte>)
    ensures fresh(output) && output[..] == Encode(x)
  {
    hide *;
    ghost var target := Encode(x);
    assert x[0..] == x;
    if x == [] {
      EncodeRest(x, 0);
      output := new byte[0];
      return;
    }
    output := new byte[4 * ((|x| - 1) / 3 + 1)];
    var src, dst := 0, 0;
    ghost var done: seq<byte> := [];
    while 3 <= |x| - src
      invariant 0 <= src <= |x| && dst == |done| <= output.Length == |target| && output[..dst] == done
      invariant done + Encode(x[src..]) == target
    {
      var a, b, c := x[src], x[src + 1], x[src + 2];
      EncodeGroup(x, src);
      Groups(a, b, c);
      JoinThree(done, Group(a, b, c), Encode(x[src + 3..]));
      done := done + Group(a, b, c);
      assert |done + Encode(x[src + 3..])| == |target|;
      Put(output, dst, Char(Six0(a)), Char(Six1(a, b)), Char(Six2(b, c)), Char(Six3(c)));
      src, dst := src + 3, dst + 4;
    }
    EncodeRest(x, src);
    if |x| - src > 1 {
      Groups(x[src], x[src + 1], 0);
      assert |done + LastOfTwo(x[src], x[src + 1])| == |target|;
      Put(output, dst, Char(Six0(x[src])), Char(Six1(x[src], x[src + 1])), Char(Six2(x[src + 1], 0)), PAD);
    } else if |x| - src > 0 {
      Groups(x[src], 0, 0);
      assert |done + LastOfOne(x[src])| == |target|;
      Put(output, dst, Char(Six0(x[src])), Char(Six1(x[src], 0)), PAD, PAD);
    }
    assert output[..] == output[..output.Length];
  }

  function Then(done: seq<byte>, rest: Option<seq<byte>>): Option<seq<byte>> {
    if rest.None? then None else Some(done + rest.value)
  }

  /** How decoding from a place on begins */
  lemma DecodeAt(s: seq<byte>, src: nat)
    requires src + 4 <= |s|
    ensures
      var t, last := Decode(s[src..]), |s| == src + 4;
      var v, w, x, y := Value(s[src]), Value(s[src + 1]), Value(s[src + 2]), Value(s[src + 3]);
      if v == INVALID || w == INVALID then t == None
      else if s[src + 2] == PAD then t == if last then Some([Eight0(v, w)]) else None
      else if x == INVALID then t == None
      else if s[src + 3] == PAD then t == if last then Some([Eight0(v, w), Eight1(w, x)]) else None
      else if y == INVALID then t == None
      else t == Then([Eight0(v, w), Eight1(w, x), Eight2(x, y)], Decode(s[src + 4..]))
  {
    hide Value, Eight0, Eight1, Eight2;
    assert s[src..][4..] == s[src + 4..];
  }

  lemma DecodeRest(s: seq<byte>, src: nat)
    requires src <= |s| < src + 4
    ensures Decode(s[src..]) == if |s| == src then Some([]) else None
  {
  }

  lemma ThenThen(a: seq<byte>, b: seq<byte>, rest: Option<seq<byte>>)
    ensures Then(a, Then(b, rest)) == Then(a + b, rest)
    ensures Then(a, None) == None && Then(a, Some([])) == Some(a) && Then(a, Some(b)) == Some(a + b)
  {
    assert a + [] == a;
    if rest.Some? {
      JoinThree(a, b, rest.value);
    }
  }

  /** Only input that was processed to its end gives its bytes. */
  ghost predicate Outcome(s: seq<byte>, len: nat, bytes: seq<byte>) {
    Decode(s) == if len == 0 then Some(bytes) else None
  }

  lemma OutcomeOfRest(s: seq<byte>, src: nat, done: seq<byte>)
    requires src <= |s| < src + 4 && Then(done, Decode(s[src..])) == Decode(s)
    ensures Outcome(s, |s| - src, done)
  {
    hide Decode;
    DecodeRest(s, src);
    ThenThen(done, [], None);
  }

  /** A break in the middle of the input, or with the group that ends it */
  lemma OutcomeOfBreak(s: seq<byte>, src: nat, done: seq<byte>, last: seq<byte>, len: nat)
    requires src <= |s| && Then(done, Decode(s[src..])) == Decode(s)
    requires Decode(s[src..]) == if len == 0 then Some(last) else None
    ensures Outcome(s, len, done + last)
  {
    hide Decode;
    ThenThen(done, last, None);
  }

  lemma DecodedIs(s: seq<byte>, len: nat, bytes: seq<byte>)
    requires Outcome(s, len, bytes)
    ensures Decoded(s) == if len == 0 then bytes else []
  {
    hide Decode;
  }

  /** One byte to a place in the output; what stands before stays. */
  method PutByte(output: array<byte>, dst: nat, b: byte, ghost done: seq<byte>)
    requires dst < output.Length && output[..dst] == done
    modifies output
    ensures output[..dst + 1] == done + [b]
  {
    output[dst] := b;
  }

  method FromBase64(s: seq<byte>) returns (r: seq<byte>)
    ensures r == Decoded(s)
  {
    hide *;
    var len := |s|;
    var output := new byte[len];
    var src, dst := 0, 0;
    ghost var done: seq<byte>, bytes: seq<byte>, broken := [], [], false;
    assert s[0..] == s;
    ThenNothing(Decode(s));
    while 4 <= len
      invariant 0 <= len == |s| - src && dst <= src && output.Length == |s| && output[..dst] == done && !broken
      invariant Then(done, Decode(s[src..])) == Decode(s)
    {
      DecodeAt(s, src);
      var v, w, x, y := Value(s[src]), Value(s[src + 1]), Value(s[src + 2]), Value(s[src + 3]);
      ByteByByte(done, Eight0(v, w), Eight1(w, x), Eight2(x, y));
      broken, bytes := true, done;
      if v == INVALID {
        OutcomeOfBreak(s, src, done, [], len);
        break;
      }
      if w == INVALID {
        OutcomeOfBreak(s, src, done, [], len);
        break;
      }
      PutByte(output, dst, Eight0(v, w), bytes);
      dst, bytes := dst + 1, bytes + [Eight0(v, w)];
      if s[src + 2] != PAD {
        if x == INVALID {
          OutcomeOfBreak(s, src, done, [Eight0(v, w)], len);
          break;
        }
        PutByte(output, dst, Eight1(w, x), bytes);
        dst, bytes := dst + 1, bytes + [Eight1(w, x)];
        if s[src + 3] != PAD {
          if y == INVALID {
            OutcomeOfBreak(s, src, done, [Eight0(v, w), Eight1(w, x)], len);
            break;
          }
          PutByte(output, dst, Eight2(x, y), bytes);
          dst, bytes := dst + 1, bytes + [Eight2(x, y)];
        } else {
          len := len - 4;
          OutcomeOfBreak(s, src, done, [Eight0(v, w), Eight1(w, x)], len);
          break;
        }
      } else {
        len := len - 4;
        OutcomeOfBreak(s, src, done, [Eight0(v, w)], len);
        break;
      }
      ThenThen(done, [Eight0(v, w), Eight1(w, x), Eight2(x, y)], Decode(s[src + 4..]));
      done, broken := bytes, false;
      src := src + 4;
      len := len - 4;
    }
    if !broken {
      bytes := done;
      OutcomeOfRest(s, src, done);
    }
    assert Outcome(s, len, bytes);
    DecodedIs(s, len, bytes);
    if len == 0 {
      r := output[..dst];
    } else {
      r := [];
    }
  }

  lemma ThenNothing(rest: Option<seq<byte>>)
    ensures Then([], rest) == rest
  {
    if rest.Some? {
      assert [] + rest.value == rest.value;
    }
  }

  lemma ByteByByte(done: seq<byte>, a: byte, b: byte, c: byte)
    ensures done + [] == done && done + [a] + [b] == done + [a, b] && done + [a] + [b] + [c] == done + [a, b, c]
  {
  }
}
