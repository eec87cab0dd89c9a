/** Integers of 1 to 16 bytes in either byte order (packint and unpackint in lmemlib.c). */
module IntCodec {
  import opened Machine
  import opened Bits

  const SZINT: nat := 8
  const MAXINTSIZE: nat := 16
  /** NB, the bits of a char, and MC, the mask of one char */
  const NB: nat := 8
  const MC: byte := 255

  // ---------- What the bytes of an integer are ----------

  /** The size low-order bytes of v in two's complement, least significant first. */
  function Digits(v: int, size: nat): (s: seq<byte>)
    ensures |s| == size
    decreases size
  {
    if size == 0 then [] else [v % 256] + Digits(v / 256, size - 1)
  }

  /** The unsigned value of a little-endian byte string. */
  function Value(s: seq<byte>): (r: nat)
  {
    if s == [] then 0 else s[0] + 256 * Value(s[1..])
  }

  /** The value of a little-endian byte string read as two's complement (signed) or as unsigned. */
  function Meaning(s: seq<byte>, signed: bool): int {
    if signed && 2 * Value(s) >= Pow256(|s|) then Value(s) - Pow256(|s|) else Value(s)
  }

  /** The Lua integer a field of |s| bytes stands for; None when it does not fit in one. */
  function DecodeInt(s: seq<byte>, signed: bool): Option<S64> {
    var v := Meaning(s, signed);
    if signed then (if -TWO63 <= v < TWO63 then Some(v) else None)
    else if v < TWO64 then Some(ToSigned(v)) else None
  }

  /** The range checks made before packing n in size bytes. */
  predicate InRange(n: S64, size: nat, signed: bool) {
    if size >= SZINT then true
    else if signed then 0 - Pow256(size) <= 2 * n < Pow256(size)
    else ToUnsigned(n) < Pow256(size)
  }

  function EncodeInt(n: S64, size: nat, signed: bool): (s: seq<byte>)
    ensures |s| == size
  {
    Digits(if signed then n else ToUnsigned(n), size)
  }

  // ---------- Arithmetic of byte strings ----------

  lemma {:induction false} DigitAt(v: int, size: nat, k: nat)
    requires k < size
    ensures Digits(v, size)[k] == (v / Pow256(k)) % 256
    decreases size
  {
    if k > 0 {
      DigitAt(v / 256, size - 1, k - 1);
      DivModSplit(v, 256, Pow256(k - 1));
    }
  }

  /** The bytes b hold n in two's complement, in the given byte order. */
  ghost predicate HoldsInt(b: seq<byte>, n: int, little: bool) {
    forall k: nat :: k < |b| ==> b[if little then k else |b| - 1 - k] == ByteOf(n, k)
  }

  lemma DigitsHold(n: int, size: nat, little: bool)
    ensures HoldsInt(Order(Digits(n, size), little), n, little)
  {
    var s := Digits(n, size);
    forall k: nat | k < size ensures Order(s, little)[if little then k else size - 1 - k] == ByteOf(n, k) {
      DigitAt(n, size, k);
    }
  }

  lemma {:induction false} DigitsCongruent(v: int, w: int, c: int, size: nat)
    requires v - w == c * Pow256(size)
    ensures Digits(v, size) == Digits(w, size)
    decreases size
  {
    if size > 0 {
      var d := c * Pow256(size - 1);
      assert v - w == 256 * d;
      DigitsCongruent(v / 256, w / 256, c, size - 1);
    }
  }

  lemma {:induction false} ValueOfDigits(v: int, size: nat)
    ensures Value(Digits(v, size)) == v % Pow256(size)
    decreases size
  {
    if size > 0 {
      ValueOfDigits(v / 256, size - 1);
      DivModSplit(v, 256, Pow256(size - 1));
      assert Digits(v, size)[1..] == Digits(v / 256, size - 1);
    }
  }

  lemma {:induction false} DigitsOfValue(s: seq<byte>)
    ensures Digits(Value(s), |s|) == s
    ensures Value(s) < Pow256(|s|)
  {
    if s != [] {
      DigitsOfValue(s[1..]);
      assert s == [s[0]] + s[1..];
    }
  }

  lemma {:induction false} ValueAppend(s: seq<byte>, t: seq<byte>)
    ensures Value(s + t) == Value(s) + Pow256(|s|) * Value(t)
  {
    if s == [] {
      assert s + t == t;
    } else {
      ValueAppend(s[1..], t);
      assert (s + t)[1..] == s[1..] + t;
      assert 256 * (Pow256(|s| - 1) * Value(t)) == Pow256(|s|) * Value(t);
    }
  }

  lemma Pow256Word()
    ensures Pow256(8) == TWO64
  {
    assert Pow256(4) == 0x1_0000_0000;
  }

  lemma {:induction false} Pow256Grows(a: nat, b: nat)
    requires a <= b
    ensures Pow256(a) <= Pow256(b)
    ensures a < b ==> 256 * Pow256(a) <= Pow256(b)
    decreases b
  {
    if a < b {
      Pow256Grows(a, b - 1);
    }
  }

  /** Fields shorter than, and at least as long as, a Lua integer. */
  lemma FieldRange(size: nat)
    ensures size < 8 ==> 256 * Pow256(size) <= TWO64
    ensures size >= 8 ==> Pow256(size) >= TWO64
  {
    Pow256Word();
    if size < 8 {
      Pow256Grows(size, 8);
    } else {
      Pow256Grows(8, size);
    }
  }

  // ---------- The codec is a bijection on its range ----------

  /** Unpacking what was packed gives the integer back. */
  lemma DecodeEncode(n: S64, size: nat, signed: bool)
    requires 1 <= size && InRange(n, size, signed)
    ensures DecodeInt(EncodeInt(n, size, signed), signed) == Some(n)
  {
    var v: int := if signed then n else ToUnsigned(n);
    var p := Pow256(size);
    ValueOfDigits(v, size);
    FieldRange(size);
    if v < 0 {
      DivModUnique(v, p, -1, v + p);
    } else {
      DivModUnique(v, p, 0, v);
    }
  }

  /** Re-packing an unpacked integer restores every byte, and the range checks let it through. */
  lemma EncodeDecode(s: seq<byte>, signed: bool)
    requires s != [] && DecodeInt(s, signed).Some?
    ensures var n := DecodeInt(s, signed).value;
            InRange(n, |s|, signed) && EncodeInt(n, |s|, signed) == s
  {
    var n := DecodeInt(s, signed).value;
    var v: int := if signed then n else ToUnsigned(n);
    DigitsOfValue(s);
    assert v == Meaning(s, signed);
    DigitsCongruent(v, Value(s), if v == Value(s) then 0 else -1, |s|);
    FieldRange(|s|);
  }

  // ---------- The C routines ----------

  /** Whether sz more bytes fit after i; a NULL base pointer reads as "no room". */
  predicate Room(base: bool, lb: nat, i: nat, sz: nat) {
    base && i + sz <= lb
  }

  method GetBytes(base: bool, i: U64, lb: U64, sz: U64) returns (ok: bool, next: U64)
    requires i <= lb < TWO63 && sz < TWO63
    requires base || lb == 0
    ensures ok == Room(base, lb, i, sz)
    ensures next == if ok then i + sz else i
  {
    var newtotal := Wrap(i + sz);
    if newtotal <= lb {
      return base, newtotal;
    }
    return false, i;
  }

  /** Where byte k (counted from the least significant one) of a field goes. */
  function Slot(k: nat, size: nat, islittle: bool): (r: nat)
    requires k < size
    ensures r < size
  {
    if islittle then k else size - 1 - k
  }

  /** The integer that packint writes: n, or n's negative reading when the sign is extended. */
  function Written(n: U64, neg: bool): int {
    if neg then n - TWO64 else n
  }

  /** Byte k of n. */
  function ByteOf(n: int, k: nat): byte {
    (n / Pow256(k)) % 256
  }

  lemma WrittenDigit(n: U64, neg: bool, size: nat, k: nat)
    requires k < size
    ensures Digits(Written(n, neg), size)[k] == if neg && k >= SZINT then MC else ByteOf(n, k)
  {
    var w, p := Written(n, neg), Pow256(k);
    DigitAt(w, size, k);
    if neg {
      FieldRange(k);
      if k >= SZINT {
        DivModUnique(w, p, -1, w + p);
      } else {
        Pow256Word();
        DigitAt(n, 8, k);
        DigitAt(w, 8, k);
        DigitsCongruent(n, w, 1, 8);
      }
    }
  }

  lemma NextByte(n: nat, i: nat, rest: nat)
    requires i > 0 && rest == n / Pow256(i - 1)
    ensures rest / 256 == n / Pow256(i) && rest / 256 % 256 == ByteOf(n, i)
  {
    DivModSplit(n, Pow256(i - 1), 256);
    assert Pow256(i) == Pow256(i - 1) * 256;
  }

  lemma OrderAt(s: seq<byte>, islittle: bool, k: nat)
    requires k < |s|
    ensures Order(s, islittle)[k] == s[Slot(k, |s|, islittle)]
  {
  }

  method PackInt(mem: array<byte>, base: bool, pos: U64, n: U64, islittle: bool, size: nat, neg: bool)
    returns (ok: bool, next: U64)
    requires 1 <= size <= MAXINTSIZE && pos <= mem.Length < TWO63
    requires base || mem.Length == 0
    modifies mem
    ensures ok == Room(base, mem.Length, pos, size)
    ensures next == if ok then pos + size else pos
    ensures mem[..] == if ok then Splice(old(mem[..]), pos, Order(Digits(Written(n, neg), size), islittle))
                       else old(mem[..])
  {
    assert Pow256(0) == 1 && ByteOf(n, 0) == n % 256;
    hide Pow256, Order, Digits, ByteOf, Splice, Written;
    ok, next := GetBytes(base, pos, mem.Length, size);
    if !ok {
      return;
    }
    var rest: nat := n;
    mem[pos + Slot(0, size, islittle)] := rest % (MC + 1);
    var i := 1;
    while i < size
      invariant 1 <= i <= size
      invariant rest == n / Pow256(i - 1)
      invariant forall j :: pos <= j < pos + size && Slot(j - pos, size, islittle) < i ==>
                  mem[j] == ByteOf(n, Slot(j - pos, size, islittle))
      invariant forall j :: 0 <= j < mem.Length && !(pos <= j < pos + size) ==> mem[j] == old(mem[j])
    {
      NextByte(n, i, rest);
      rest := rest / (MC + 1);
      mem[pos + Slot(i, size, islittle)] := rest % (MC + 1);
      i := i + 1;
    }
    if neg && size > SZINT {
      i := SZINT;
      while i < size
        invariant SZINT <= i <= size
        invariant forall j :: pos <= j < pos + size && !(SZINT <= Slot(j - pos, size, islittle) < i) ==>
                    mem[j] == ByteOf(n, Slot(j - pos, size, islittle))
        invariant forall j :: pos <= j < pos + size && SZINT <= Slot(j - pos, size, islittle) < i ==> mem[j] == MC
        invariant forall j :: 0 <= j < mem.Length && !(pos <= j < pos + size) ==> mem[j] == old(mem[j])
      {
        mem[pos + Slot(i, size, islittle)] := MC;
        i := i + 1;
      }
    }
    FieldFilled(mem[..], old(mem[..]), pos, n, islittle, size, neg);
  }

  /** A memory that holds byte k of the integer in slot k and is otherwise as before is the spliced one. */
  lemma FieldFilled(m: seq<byte>, was: seq<byte>, pos: nat, n: U64, islittle: bool, size: nat, neg: bool)
    requires |m| == |was| && pos + size <= |m|
    requires forall j :: pos <= j < pos + size ==>
               var k := Slot(j - pos, size, islittle);
               m[j] == if neg && k >= SZINT then MC else ByteOf(n, k)
    requires forall j :: 0 <= j < |m| && !(pos <= j < pos + size) ==> m[j] == was[j]
    ensures m == Splice(was, pos, Order(Digits(Written(n, neg), size), islittle))
  {
    var s := Digits(Written(n, neg), size);
    forall j | 0 <= j < |m|
      ensures m[j] == Splice(was, pos, Order(s, islittle))[j]
    {
      if pos <= j < pos + size {
        WrittenDigit(n, neg, size, Slot(j - pos, size, islittle));
        OrderAt(s, islittle, j - pos);
      }
    }
  }

  /** Flipping the sign bit and subtracting it re-reads the field as signed. */
  lemma FlipSign(s: seq<byte>, k: nat)
    requires k + 1 == 8 * |s|
    ensures Xor(Value(s), Pow2(k)) - Pow2(k) == Meaning(s, true)
  {
    DigitsOfValue(s);
    Pow2Bytes(|s|);
    XorTop(Value(s), k);
  }

  lemma ShortSigned(s: seq<byte>)
    requires |s| < SZINT
    ensures -TWO63 <= Meaning(s, true) < TWO63
    ensures DecodeInt(s, true) == Some(Meaning(s, true))
  {
    DigitsOfValue(s);
    FieldRange(|s|);
  }

  lemma SignedCast(v: int)
    requires -TWO63 <= v < TWO63
    ensures ToSigned(Wrap(v)) == v
  {
  }

  /** Sign extension by flipping and subtracting the sign bit. */
  lemma SignExtend(s: seq<byte>)
    requires 1 <= |s| < SZINT
    ensures var mask := Pow2(|s| * NB - 1);
            DecodeInt(s, true) == Some(ToSigned(Wrap(Xor(Value(s), mask) - mask)))
  {
    FlipSign(s, |s| * NB - 1);
    ShortSigned(s);
    SignedCast(Meaning(s, true));
  }

  /** Short unsigned fields and eight-byte fields are read as they are. */
  lemma Exact(s: seq<byte>, signed: bool)
    requires signed ==> |s| == SZINT
    requires |s| <= SZINT
    ensures Value(s) < TWO64
    ensures DecodeInt(s, signed) == Some(ToSigned(Value(s)))
  {
    DigitsOfValue(s);
    FieldRange(|s|);
    Pow256Word();
  }

  /** One round of the unpacking loop: shift a byte in from below. */
  lemma ShiftIn(t: seq<byte>, res: U64)
    requires 1 <= |t| <= SZINT && res == Value(t[1..])
    ensures Value(t) < TWO64
    ensures Or(Wrap(res * 256), t[0]) == Value(t)
  {
    hide Or, DecodeInt, Pow256;
    Exact(t, false);
    assert Value(t) == t[0] + 256 * res;
    OrByte(res, t[0]);
  }

  /** The bytes that must be all zeros or all ones beyond the eighth. */
  function Filling(s: seq<byte>, signed: bool): byte
    requires |s| >= SZINT
  {
    DigitsOfValue(s[..SZINT]);
    Pow256Word();
    if !signed || ToSigned(Value(s[..SZINT])) >= 0 then 0 else MC
  }

  predicate Repeats(s: seq<byte>, from: nat, to: nat, b: byte)
    requires to <= |s|
  {
    forall k :: from <= k < to ==> s[k] == b
  }

  predicate Filled(s: seq<byte>, signed: bool)
    requires |s| >= SZINT
  {
    Repeats(s, SZINT, |s|, Filling(s, signed))
  }

  /** An overlong field is readable exactly when its extra bytes all repeat the sign. */
  lemma Overlong(s: seq<byte>, signed: bool)
    requires |s| > SZINT
    ensures Value(s[..SZINT]) < TWO64
    ensures DecodeInt(s, signed) == if Filled(s, signed) then Some(ToSigned(Value(s[..SZINT]))) else None
  {
    Exact(s[..SZINT], false);
    var low: U64 := Value(s[..SZINT]);
    if DecodeInt(s, signed).Some? {
      ReadableIsFilled(s, signed);
    } else if Filled(s, signed) {
      var n := ToSigned(low);
      FilledIsEncoding(s, signed);
      DecodeEncode(n, |s|, signed);
    }
  }

  lemma ReadableIsFilled(s: seq<byte>, signed: bool)
    requires |s| > SZINT && DecodeInt(s, signed).Some?
    ensures Filled(s, signed) && ToUnsigned(DecodeInt(s, signed).value) == Value(s[..SZINT])
  {
    var n := DecodeInt(s, signed).value;
    var u := ToUnsigned(n);
    EncodeDecode(s, signed);
    OverlongDigits(n, |s|, signed);
    LowWord(s, u);
  }

  lemma LowWord(s: seq<byte>, u: U64)
    requires |s| >= SZINT && s[..SZINT] == Digits(u, SZINT)
    ensures Value(s[..SZINT]) == u
  {
    ValueOfDigits(u, SZINT);
    Pow256Word();
  }

  lemma FilledIsEncoding(s: seq<byte>, signed: bool)
    requires |s| > SZINT && Filled(s, signed)
    ensures Value(s[..SZINT]) < TWO64
    ensures s == EncodeInt(ToSigned(Value(s[..SZINT])), |s|, signed)
  {
    Exact(s[..SZINT], false);
    var low: U64 := Value(s[..SZINT]);
    OverlongDigits(ToSigned(low), |s|, signed);
    assert ToUnsigned(ToSigned(low)) == low;
    DigitsOfValue(s[..SZINT]);
    var e := EncodeInt(ToSigned(low), |s|, signed);
    assert forall k :: 0 <= k < SZINT ==> s[k] == s[..SZINT][k] && e[k] == e[..SZINT][k];
  }

  lemma OverlongDigits(n: S64, size: nat, signed: bool)
    requires size > SZINT
    ensures EncodeInt(n, size, signed)[..SZINT] == Digits(ToUnsigned(n), SZINT)
    ensures forall k :: SZINT <= k < size ==> EncodeInt(n, size, signed)[k] == if signed && n < 0 then MC else 0
  {
    var u, neg := ToUnsigned(n), signed && n < 0;
    assert Written(u, neg) == if signed then n else u;
    forall k | 0 <= k < size
      ensures k < SZINT ==> EncodeInt(n, size, signed)[k] == Digits(u, SZINT)[k]
      ensures k >= SZINT ==> EncodeInt(n, size, signed)[k] == if neg then MC else 0
    {
      WrittenDigit(u, neg, size, k);
      if k < SZINT {
        DigitAt(u, SZINT, k);
      } else {
        FieldRange(k);
        DivModUnique(u, Pow256(k), 0, u);
      }
    }
  }

  /** The check of the bytes beyond the eighth. */
  method UnreadBytesAre(mask: byte, data: array<byte>, pos: nat, islittle: bool, size: nat) returns (ok: bool)
    requires SZINT <= size <= MAXINTSIZE && pos + size <= data.Length
    ensures ok <==> Repeats(Order(data[pos..pos + size], islittle), SZINT, size, mask)
  {
    ghost var field := data[pos..pos + size];
    ghost var s := Order(field, islittle);
    var i := SZINT;
    while i < size
      invariant SZINT <= i <= size
      invariant forall k :: SZINT <= k < i ==> s[k] == mask
    {
      OrderAt(field, islittle, i);
      if data[pos + Slot(i, size, islittle)] != mask {
        return false;
      }
      i := i + 1;
    }
    return true;
  }

  method UnpackInt(data: array<byte>, pos: nat, islittle: bool, size: nat, issigned: bool) returns (r: Option<S64>)
    requires 1 <= size <= MAXINTSIZE && pos + size <= data.Length
    ensures r == DecodeInt(Order(data[pos..pos + size], islittle), issigned)
  {
    hide Or, Xor, DecodeInt, Pow2, Order;
    ghost var field := data[pos..pos + size];
    ghost var s := Order(field, islittle);
    var res: U64 := 0;
    var limit := if size <= SZINT then size else SZINT;
    var i := limit - 1;
    while i >= 0
      invariant -1 <= i < limit
      invariant res == Value(s[i + 1..limit])
    {
      ghost var t := s[i..limit];
      assert t[1..] == s[i + 1..limit];
      ShiftIn(t, res);
      OrderAt(field, islittle, i);
      res := Or(Wrap(res * 256), data[pos + Slot(i, size, islittle)]);
      i := i - 1;
    }
    assert s[..limit] == s[0..limit];
    if size < SZINT {
      assert s[..size] == s;
      if issigned {
        var mask := Pow2(size * NB - 1);
        SignExtend(s);
        res := Wrap(Xor(res, mask) - mask);
      } else {
        Exact(s, issigned);
      }
    } else if size > SZINT {
      var mask: byte := if !issigned || ToSigned(res) >= 0 then 0 else MC;
      Overlong(s, issigned);
      var fits := UnreadBytesAre(mask, data, pos, islittle, size);
      if !fits {
        return None;
      }
    } else {
      assert s[..size] == s;
      Exact(s, issigned);
    }
    return Some(ToSigned(res));
  }
}
