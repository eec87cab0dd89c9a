/** Format strings of pack and unpack: what each option asks for. */
module Format {
  import opened Machine
  import opened Bits
  import opened IntCodec

  const SIZEOF_SHORT: nat := 2
  const SIZEOF_INT: nat := 4
  const SIZEOF_LONG: nat := 8
  const SIZEOF_SIZE_T: nat := 8
  const SIZEOF_FLOAT: nat := 4
  const SIZEOF_DOUBLE: nat := 8
  const MAXALIGN: nat := 8

  /** The largest value after which getnum reads another digit. */
  const NUMERAL_LIMIT: nat := (INT_MAX - 9) / 10

  datatype Kind = KInt | KUint | KFloat | KChar | KString | KZstr | KPadding | KPaddAlign | KNop

  /** The fields of a Header, and the byte order of the machine. */
  datatype Config = Config(native: bool, little: bool, maxAlign: nat)

  function InitialConfig(native: bool): Config {
    Config(native, native, 1)
  }

  predicate ValidConfig(c: Config) {
    1 <= c.maxAlign <= MAXINTSIZE
  }

  /** The character at p of a C string; its terminator when p is its length. */
  function CharAt(fmt: string, p: nat): char
    requires p <= |fmt|
  {
    if p < |fmt| then fmt[p] else '\0'
  }

  predicate IsDigit(c: char) {
    '0' <= c <= '9'
  }

  function DigitValue(c: char): nat
    requires IsDigit(c)
  {
    c as int - '0' as int
  }

  function Decimal(s: string): nat
    requires forall c <- s :: IsDigit(c)
  {
    if s == [] then 0 else 10 * Decimal(s[..|s| - 1]) + DigitValue(s[|s| - 1])
  }

  /** The loop of getnum, entered on a digit with the value read so far. */
  function Numeral(fmt: string, p: nat, a: nat): (r: (nat, nat))
    requires p < |fmt| && IsDigit(fmt[p]) && a <= NUMERAL_LIMIT
    ensures r.0 <= INT_MAX && p < r.1 <= |fmt|
    ensures forall k :: p <= k < r.1 ==> IsDigit(fmt[k])
    ensures IsDigit(CharAt(fmt, r.1)) ==> r.0 > NUMERAL_LIMIT
    decreases |fmt| - p
  {
    var a' := a * 10 + DigitValue(fmt[p]);
    if IsDigit(CharAt(fmt, p + 1)) && a' <= NUMERAL_LIMIT then Numeral(fmt, p + 1, a') else (a', p + 1)
  }

  /** getnum: value and next position. */
  function ReadNum(fmt: string, p: nat, df: int): (r: (int, nat))
    requires p <= |fmt|
    ensures p <= r.1 <= |fmt|
    ensures IsDigit(CharAt(fmt, p)) ==> 0 <= r.0 <= INT_MAX && r.1 > p
    ensures !IsDigit(CharAt(fmt, p)) ==> r == (df, p)
    ensures forall k :: p <= k < r.1 ==> IsDigit(fmt[k])
  {
    if IsDigit(CharAt(fmt, p)) then Numeral(fmt, p, 0) else (df, p)
  }

  /** The value of a numeral is that of the digits read. */
  lemma {:induction false} NumeralIsDecimal(fmt: string, p: nat, q: nat, a: nat)
    requires p <= q < |fmt| && a <= NUMERAL_LIMIT
    requires forall k :: p <= k <= q ==> IsDigit(fmt[k])
    requires a == Decimal(fmt[p..q])
    ensures var r := Numeral(fmt, q, a); r.0 == Decimal(fmt[p..r.1])
    decreases |fmt| - q
  {
    var a' := a * 10 + DigitValue(fmt[q]);
    var s := fmt[p..q + 1];
    assert s[..|s| - 1] == fmt[p..q];
    assert a' == Decimal(s);
    if IsDigit(CharAt(fmt, q + 1)) && a' <= NUMERAL_LIMIT {
      NumeralIsDecimal(fmt, p, q + 1, a');
    }
  }

  /** All digits are read, unless another one might overflow an int. */
  lemma NumeralStops(fmt: string, p: nat)
    requires p < |fmt| && '0' <= fmt[p] <= '9'
    ensures var (a, q) := Numeral(fmt, p, 0);
      0 <= a <= 2147483647 && p < q <= |fmt| && (q < |fmt| && '0' <= fmt[q] <= '9' ==> a > 214748363)
  {
  }

  /** What getoption finds: an option, its size, the configuration it leaves and the next position. */
  datatype OptionResult = Opt(kind: Kind, size: nat, cfg: Config, next: nat) | BadFormat

  /** Options whose size is a numeral in 1..16. */
  function SizedOption(kind: Kind, c: Config, fmt: string, p: nat, df: nat): OptionResult
    requires p <= |fmt|
  {
    var (sz, q) := ReadNum(fmt, p, df);
    if 1 <= sz <= MAXINTSIZE then Opt(kind, sz, c, q) else BadFormat
  }

  function ReadOption(c: Config, fmt: string, p: nat): (r: OptionResult)
    requires ValidConfig(c) && p < |fmt| && fmt[p] != '\0'
    ensures r.Opt? ==> ValidConfig(r.cfg) && r.cfg.native == c.native && p < r.next <= |fmt| && r.size <= INT_MAX
    ensures r.Opt? ==> forall k :: p <= k < r.next ==> fmt[k] != '\0'
    ensures r.Opt? && r.kind in {KInt, KUint, KString} ==> 1 <= r.size <= MAXINTSIZE
    ensures r.Opt? && r.kind == KFloat ==> r.size == SIZEOF_FLOAT || r.size == SIZEOF_DOUBLE
    ensures r.Opt? && r.kind in {KZstr, KPaddAlign, KNop} ==> r.size == 0
    ensures r.Opt? && r.kind == KPadding ==> r.size == 1
    ensures r.Opt? && r.kind != KNop ==> r.cfg == c
  {
    match fmt[p]
    case 'b' => Opt(KInt, 1, c, p + 1)
    case 'B' => Opt(KUint, 1, c, p + 1)
    case 'h' => Opt(KInt, SIZEOF_SHORT, c, p + 1)
    case 'H' => Opt(KUint, SIZEOF_SHORT, c, p + 1)
    case 'l' => Opt(KInt, SIZEOF_LONG, c, p + 1)
    case 'L' => Opt(KUint, SIZEOF_LONG, c, p + 1)
    case 'j' => Opt(KInt, SZINT, c, p + 1)
    case 'J' => Opt(KUint, SZINT, c, p + 1)
    case 'T' => Opt(KUint, SIZEOF_SIZE_T, c, p + 1)
    case 'f' => Opt(KFloat, SIZEOF_FLOAT, c, p + 1)
    case 'd' => Opt(KFloat, SIZEOF_DOUBLE, c, p + 1)
    case 'n' => Opt(KFloat, SIZEOF_DOUBLE, c, p + 1)
    case 'i' => SizedOption(KInt, c, fmt, p + 1, SIZEOF_INT)
    case 'I' => SizedOption(KUint, c, fmt, p + 1, SIZEOF_INT)
    case 's' => SizedOption(KString, c, fmt, p + 1, SIZEOF_SIZE_T)
    case 'c' => (var (sz, q) := ReadNum(fmt, p + 1, -1); if sz == -1 then BadFormat else Opt(KChar, sz, c, q))
    case 'z' => Opt(KZstr, 0, c, p + 1)
    case 'x' => Opt(KPadding, 1, c, p + 1)
    case 'X' => Opt(KPaddAlign, 0, c, p + 1)
    case ' ' => Opt(KNop, 0, c, p + 1)
    case '<' => Opt(KNop, 0, c.(little := true), p + 1)
    case '>' => Opt(KNop, 0, c.(little := false), p + 1)
    case '=' => Opt(KNop, 0, c.(little := c.native), p + 1)
    case '!' => (match SizedOption(KNop, c, fmt, p + 1, MAXALIGN)
                 case Opt(_, sz, _, q) => Opt(KNop, 0, c.(maxAlign := sz), q)
                 case BadFormat => BadFormat)
    case _ => BadFormat
  }

  // ---------- The letters ----------

  /** A row of the table of options: a letter alone, or a letter with a size that a numeral may replace. */
  datatype Row = Alone(kind: Kind, size: nat) | Counted(kind: Kind, default: nat) | Unlisted

  /** The options that move data or padding, in bytes. */
  function Table(letter: char): Row {
    match letter
    case 'b' => Alone(KInt, 1)
    case 'B' => Alone(KUint, 1)
    case 'h' => Alone(KInt, 2)
    case 'H' => Alone(KUint, 2)
    case 'i' => Counted(KInt, 4)
    case 'I' => Counted(KUint, 4)
    case 'l' => Alone(KInt, 8)
    case 'L' => Alone(KUint, 8)
    case 'j' => Alone(KInt, 8)
    case 'J' => Alone(KUint, 8)
    case 'T' => Alone(KUint, 8)
    case 'f' => Alone(KFloat, 4)
    case 'd' => Alone(KFloat, 8)
    case 'n' => Alone(KFloat, 8)
    case 's' => Counted(KString, 8)
    case 'z' => Alone(KZstr, 0)
    case 'x' => Alone(KPadding, 1)
    case 'X' => Alone(KPaddAlign, 0)
    case ' ' => Alone(KNop, 0)
    case _ => Unlisted
  }

  /** A numeral of the size of an option, if there is one: its value and the position after it. */
  function SizeAt(fmt: string, p: nat, default: nat): (int, nat)
    requires p <= |fmt|
  {
    if p < |fmt| && '0' <= fmt[p] <= '9' then Numeral(fmt, p, 0) else (default, p)
  }

  /** Every option is read as the table says. */
  lemma TableIsRead(c: Config, fmt: string, p: nat)
    requires ValidConfig(c) && p < |fmt| && fmt[p] != '\0'
    ensures match Table(fmt[p])
      case Alone(kind, size) => ReadOption(c, fmt, p) == Opt(kind, size, c, p + 1)
      case Counted(kind, default) =>
        var (size, q) := SizeAt(fmt, p + 1, default);
        ReadOption(c, fmt, p) == if 1 <= size <= 16 then Opt(kind, size, c, q) else BadFormat
      case Unlisted => true
  {
  }

  /** The other letters: 'c' needs a numeral, three letters set the byte order, '!' followed by a numeral the maximum
      alignment, and no other letter is an option. */
  lemma OtherLetters(c: Config, fmt: string, p: nat)
    requires ValidConfig(c) && p < |fmt| && fmt[p] != '\0' && Table(fmt[p]).Unlisted?
    ensures var r := ReadOption(c, fmt, p);
      if fmt[p] == 'c' then
        if p + 1 < |fmt| && '0' <= fmt[p + 1] <= '9' then
          var (size, q) := Numeral(fmt, p + 1, 0); r == Opt(KChar, size, c, q)
        else r == BadFormat
      else if fmt[p] == '<' then r == Opt(KNop, 0, Config(c.native, true, c.maxAlign), p + 1)
      else if fmt[p] == '>' then r == Opt(KNop, 0, Config(c.native, false, c.maxAlign), p + 1)
      else if fmt[p] == '=' then r == Opt(KNop, 0, Config(c.native, c.native, c.maxAlign), p + 1)
      else if fmt[p] == '!' then
        var (size, q) := SizeAt(fmt, p + 1, 8);
        r == if 1 <= size <= 16 then Opt(KNop, 0, Config(c.native, c.little, size), q) else BadFormat
      else r == BadFormat
  {
  }

  /** What getdetails guarantees about the size of an option. */
  predicate Sized(kind: Kind, size: nat) {
    && size <= INT_MAX
    && (kind in {KInt, KUint, KString} ==> 1 <= size <= MAXINTSIZE)
    && (kind == KFloat ==> size == SIZEOF_FLOAT || size == SIZEOF_DOUBLE)
    && (kind in {KZstr, KPaddAlign, KNop} ==> size == 0)
    && (kind == KPadding ==> size == 1)
  }

  /** One instruction of a format: an option with its size, alignment and byte order, or an error to raise. */
  datatype Token = Token(kind: Kind, size: nat, align: nat, little: bool) | BadToken

  predicate ValidToken(t: Token) {
    t.Token? ==> Sized(t.kind, t.size) && IsPowerOf2(t.align) && (t.kind in {KZstr, KChar, KPadding} ==> t.align == 1)
  }

  predicate IsPowerOf2(n: nat) {
    n in {1, 2, 4, 8, 16}
  }

  /** The number of bytes to skip at offset total for an item aligned to align. */
  function Padding(total: nat, align: nat): nat
    requires align > 0
  {
    if total % align == 0 then 0 else align - total % align
  }

  /** It is the least number of bytes that takes the offset to a multiple of the alignment. */
  lemma PaddingIsLeast(total: nat, align: nat, other: nat)
    requires align > 0
    ensures Padding(total, align) < align && (total + Padding(total, align)) % align == 0
    ensures (total + other) % align == 0 ==> Padding(total, align) <= other
  {
    var q, m := total / align, total % align;
    if m != 0 {
      assert total - m + align == (q + 1) * align;
      DivModUnique(total - m + align, align, q + 1, 0);
    }
    if (total + other) % align == 0 {
      LeastMultiple(total, Padding(total, align), other, align);
    }
  }

  /** The size that the option at hand must be aligned to; None when the format is wrong. */
  function AlignmentOf(o: OptionResult, fmt: string): Option<nat>
    requires o.Opt? && ValidConfig(o.cfg) && o.next <= |fmt|
  {
    if o.kind != KPaddAlign then Some(o.size)
    else if CharAt(fmt, o.next) == '\0' then None
    else match ReadOption(o.cfg, fmt, o.next)
      case BadFormat => None
      case Opt(kind, size, _, _) => if kind == KChar || size == 0 then None else Some(size)
  }

  /** The position after the option, which for 'X' is after the option that gives the alignment. */
  function EndOfOption(o: OptionResult, fmt: string): (r: nat)
    requires o.Opt? && ValidConfig(o.cfg) && o.next <= |fmt| && AlignmentOf(o, fmt).Some?
    ensures o.next <= r <= |fmt| && forall k :: o.next <= k < r ==> fmt[k] != '\0'
  {
    if o.kind != KPaddAlign then o.next else ReadOption(o.cfg, fmt, o.next).next
  }

  /** One instruction read: the token, the configuration after it and the next position. */
  datatype Reading = Reading(token: Token, cfg: Config, next: nat)

  /** What getdetails reads, all but the padding, which depends on the offset. */
  function ReadToken(c: Config, fmt: string, p: nat): (r: Reading)
    requires ValidConfig(c) && p < |fmt| && fmt[p] != '\0'
    ensures ValidToken(r.token)
    ensures r.token.Token? ==> ValidConfig(r.cfg) && r.cfg.native == c.native && p < r.next <= |fmt|
    ensures r.token.Token? ==> forall k :: p <= k < r.next ==> fmt[k] != '\0'
  {
    var o := ReadOption(c, fmt, p);
    if o.BadFormat? || AlignmentOf(o, fmt).None? then Reading(BadToken, c, p)
    else
      var want := AlignmentOf(o, fmt).value;
      var align := if want <= 1 || o.kind == KChar then 1 else Min(want, o.cfg.maxAlign);
      Reading(if IsPowerOf2(align) then Token(o.kind, o.size, align, o.cfg.little) else BadToken, o.cfg, EndOfOption(o, fmt))
  }

  /** The token of an option: it is aligned to its size or the maximum alignment, whichever is smaller, and to nothing if it
      is a fixed-size string or of size 0 or 1; 'X' takes the size of the option after it, which it uses up. An alignment
      that is no power of two is an error. */
  lemma TokenLaw(c: Config, fmt: string, p: nat)
    requires ValidConfig(c) && p < |fmt| && fmt[p] != '\0'
    ensures var o, r := ReadOption(c, fmt, p), ReadToken(c, fmt, p);
      if o.BadFormat? then r.token == BadToken
      else if o.kind != KPaddAlign then
        IsAligned(r.token, o.kind, o.size, if o.kind == KChar then 0 else o.size, o.cfg)
        && (r.token.Token? ==> r.cfg == o.cfg && r.next == o.next)
      else if o.next == |fmt| || fmt[o.next] == '\0' then r.token == BadToken
      else
        var x := ReadOption(o.cfg, fmt, o.next);
        if x.BadFormat? || x.kind == KChar || x.size == 0 then r.token == BadToken
        else IsAligned(r.token, KPaddAlign, 0, x.size, o.cfg) && (r.token.Token? ==> r.cfg == o.cfg && r.next == x.next)
  {
    hide ReadOption;
  }

  predicate IsAligned(t: Token, kind: Kind, size: nat, want: nat, c: Config) {
    if want <= 1 then t == Token(kind, size, 1, c.little)
    else
      var align := if want < c.maxAlign then want else c.maxAlign;
      t == if align in {1, 2, 4, 8, 16} then Token(kind, size, align, c.little) else BadToken
  }

  /** The instructions from position p on; reading stops at the first error. */
  function Tokens(c: Config, fmt: string, p: nat): (r: seq<Token>)
    requires ValidConfig(c) && p <= |fmt|
    ensures forall t <- r :: ValidToken(t)
    ensures |r| <= |fmt| - p
    decreases |fmt| - p
  {
    if CharAt(fmt, p) == '\0' then []
    else
      var r := ReadToken(c, fmt, p);
      [r.token] + if r.token.BadToken? then [] else Tokens(r.cfg, fmt, r.next)
  }

  lemma TokensNil(c: Config, fmt: string, p: nat)
    requires ValidConfig(c) && p <= |fmt| && CharAt(fmt, p) == '\0'
    ensures Tokens(c, fmt, p) == []
  {
  }

  lemma TokensCons(c: Config, fmt: string, p: nat)
    requires ValidConfig(c) && p < |fmt| && fmt[p] != '\0'
    ensures var r := ReadToken(c, fmt, p);
      Tokens(c, fmt, p) == [r.token] + if r.token.BadToken? then [] else Tokens(r.cfg, fmt, r.next)
  {
  }

  /** The whole format, as a fresh Header reads it. */
  function Program(native: bool, fmt: string): (r: seq<Token>)
    ensures forall t <- r :: ValidToken(t)
  {
    Tokens(InitialConfig(native), fmt, 0)
  }

  // ---------- The bit masks of getdetails ----------

  /** (align & (align - 1)) == 0 singles out the powers of two. */
  lemma MaskTestsPowerOf2(align: nat)
    requires 1 <= align <= MAXINTSIZE
    ensures And(align, align - 1) == 0 <==> IsPowerOf2(align)
  {
    if align % 2 == 1 {
      HalfMask(align - 1);
    } else {
      MaskTestsPowerOf2(align / 2);
    }
  }

  lemma HalfMask(even: nat)
    requires even % 2 == 0
    ensures And(even + 1, even) == even
  {
    if even > 0 {
      assert (even + 1) / 2 == even / 2 && (even + 1) % 2 == 1;
      AndSelf(even / 2);
    }
  }

  lemma AndSelf(x: nat)
    ensures And(x, x) == x
  {
    if x > 0 {
      AndSelf(x / 2);
    }
  }

  /** The mask expression of getdetails is the padding. */
  lemma MaskIsPadding(total: nat, align: nat)
    requires IsPowerOf2(align)
    ensures And(total, align - 1) <= align
    ensures And(align - And(total, align - 1), align - 1) == Padding(total, align)
  {
    assert Pow2(1) == 2 && Pow2(2) == 4 && Pow2(3) == 8 && Pow2(4) == 16;
    hide And, Padding;
    MaskIsPaddingFor(total, if align == 1 then 0 else if align == 2 then 1 else if align == 4 then 2 else if align == 8 then 3 else 4);
  }

  lemma MaskIsPaddingFor(total: nat, k: nat)
    ensures var align := Pow2(k);
            And(total, align - 1) <= align && And(align - And(total, align - 1), align - 1) == Padding(total, align)
  {
    var align := Pow2(k);
    var m := total % align;
    AndMask(total, k);
    AndMask(align - m, k);
    if m == 0 {
      DivModUnique(align, align, 1, 0);
    } else {
      DivModUnique(align - m, align, 0, align - m);
    }
  }

  // ---------- The C routines ----------

  method GetNum(fmt: string, p: nat, df: int) returns (a: int, q: nat)
    requires p <= |fmt|
    ensures (a, q) == ReadNum(fmt, p, df)
  {
    if !IsDigit(CharAt(fmt, p)) {
      return df, p;
    }
    a, q := DigitValue(fmt[p]), p + 1;
    while IsDigit(CharAt(fmt, q)) && a <= NUMERAL_LIMIT
      invariant p < q <= |fmt| && 0 <= a
      invariant ReadNum(fmt, p, df)
             == if IsDigit(CharAt(fmt, q)) && a <= NUMERAL_LIMIT then Numeral(fmt, q, a) else (a, q)
      decreases |fmt| - q
    {
      a := a * 10 + DigitValue(fmt[q]);
      q := q + 1;
    }
  }

  method GetNumLimit(fmt: string, p: nat, df: nat) returns (ok: bool, sz: int, q: nat)
    requires p <= |fmt|
    ensures (sz, q) == ReadNum(fmt, p, df) && ok == (1 <= sz <= MAXINTSIZE)
  {
    sz, q := GetNum(fmt, p, df);
    ok := !(sz > MAXINTSIZE || sz <= 0);
  }

  class Header {
    const native: bool
    var islittle: bool
    var maxalign: nat

    constructor (native: bool)
      ensures View() == InitialConfig(native)
    {
      this.native := native;
      islittle := native;
      maxalign := 1;
    }

    function View(): Config
      reads this
    {
      Config(native, islittle, maxalign)
    }

    /** getoption; ok is false when the C code raises an error. */
    method GetOption(fmt: string, p: nat) returns (ok: bool, kind: Kind, size: nat, q: nat)
      requires ValidConfig(View()) && p < |fmt| && fmt[p] != '\0'
      modifies this
      ensures var o := ReadOption(old(View()), fmt, p);
              ok == o.Opt? && (ok ==> o == Opt(kind, size, View(), q))
    {
      ok, kind, size, q := true, KNop, 0, p + 1;
      var sz: int;
      match fmt[p] {
        case 'b' => size, kind := 1, KInt;
        case 'B' => size, kind := 1, KUint;
        case 'h' => size, kind := SIZEOF_SHORT, KInt;
        case 'H' => size, kind := SIZEOF_SHORT, KUint;
        case 'l' => size, kind := SIZEOF_LONG, KInt;
        case 'L' => size, kind := SIZEOF_LONG, KUint;
        case 'j' => size, kind := SZINT, KInt;
        case 'J' => size, kind := SZINT, KUint;
        case 'T' => size, kind := SIZEOF_SIZE_T, KUint;
        case 'f' => size, kind := SIZEOF_FLOAT, KFloat;
        case 'd' => size, kind := SIZEOF_DOUBLE, KFloat;
        case 'n' => size, kind := SIZEOF_DOUBLE, KFloat;
        case 'i' =>
          ok, sz, q := GetNumLimit(fmt, q, SIZEOF_INT);
          if ok {
            size, kind := sz, KInt;
          }
        case 'I' =>
          ok, sz, q := GetNumLimit(fmt, q, SIZEOF_INT);
          if ok {
            size, kind := sz, KUint;
          }
        case 's' =>
          ok, sz, q := GetNumLimit(fmt, q, SIZEOF_SIZE_T);
          if ok {
            size, kind := sz, KString;
          }
        case 'c' =>
          sz, q := GetNum(fmt, q, -1);
          if sz == -1 {
            return false, KNop, 0, q;
          }
          size, kind := sz, KChar;
        case 'z' => kind := KZstr;
        case 'x' => size, kind := 1, KPadding;
        case 'X' => kind := KPaddAlign;
        case ' ' =>
        case '<' => islittle := true;
        case '>' => islittle := false;
        case '=' => islittle := native;
        case '!' =>
          ok, sz, q := GetNumLimit(fmt, q, MAXALIGN);
          if ok {
            maxalign := sz;
          }
        case _ => ok := false;
      }
    }

    /** getdetails */
    method GetDetails(total: nat, fmt: string, p: nat) returns (ok: bool, kind: Kind, size: nat, ntoalign: nat, q: nat)
      requires ValidConfig(View()) && p < |fmt| && fmt[p] != '\0'
      modifies this
      ensures var r := ReadToken(old(View()), fmt, p);
              ok == r.token.Token? &&
              (ok ==> r.token.kind == kind && r.token.size == size && r.token.little == islittle
                      && ntoalign == Padding(total, r.token.align) && r.cfg == View() && r.next == q)
    {
      ok, kind, size, q := GetOption(fmt, p);
      ntoalign := 0;
      if !ok {
        return;
      }
      var align := size;
      if kind == KPaddAlign {
        if CharAt(fmt, q) == '\0' {
          return false, kind, size, 0, q;
        }
        var next: Kind;
        ok, next, align, q := GetOption(fmt, q);
        if !ok || next == KChar || align == 0 {
          return false, kind, size, 0, q;
        }
      }
      if align <= 1 || kind == KChar {
        return;
      }
      if align > maxalign {
        align := maxalign;
      }
      MaskTestsPowerOf2(align);
      if And(align, align - 1) != 0 {
        return false, kind, size, 0, q;
      }
      MaskIsPadding(total, align);
      ntoalign := And(align - And(total, align - 1), align - 1);
    }
  }
}
