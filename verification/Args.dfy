/**
  Integer arguments of the wire format: minimal forms, zigzag, and the
  arbitrary-precision bodies (internal/wire/arg.go, value.go:110-196).

  Parsers read a flat byte string from a position. They accept exactly the bytes
  the writers produce.
 */
module Bytes {
  type byte = b: int | 0 <= b < 256

  const U64: int := 0x1_0000_0000_0000_0000

  type u64 = n: int | 0 <= n < U64

  /** Why a parse fails: the class of the error, as the wire layer and the decoder report it. */
  datatype Fault = Truncated | MalformedArg | MalformedOp | BadRef | BadView | Budget | Overflow

  /** The outcome of reading at a position: the value and the position after it, or a fault. */
  datatype Parse<+T> = Ok(value: T, next: nat) | Err(fault: Fault) {
    predicate IsFailure() { Err? }
    function PropagateFailure<U>(): Parse<U>
      requires Err?
    {
      Err(fault)
    }
    function Extract(): (T, nat)
      requires Ok?
    {
      (value, next)
    }
  }

  /** The `w` low-order bytes of `n`, most significant first. */
  function BigEndian(n: nat, w: nat): (r: seq<byte>)
    ensures |r| == w
  {
    if w == 0 then [] else BigEndian(n / 256, w - 1) + [n % 256]
  }

  /** The number a big-endian byte string stands for. */
  function FromBigEndian(b: seq<byte>): nat {
    if b == [] then 0 else FromBigEndian(b[..|b| - 1]) * 256 + b[|b| - 1]
  }

  function Pow256(w: nat): nat {
    if w == 0 then 1 else 256 * Pow256(w - 1)
  }

  lemma {:induction false} FromBigEndianBound(b: seq<byte>)
    ensures FromBigEndian(b) < Pow256(|b|)
  {
    if b != [] {
      FromBigEndianBound(b[..|b| - 1]);
    }
  }

  lemma {:induction false} BigEndianInverse(n: nat, w: nat)
    requires n < Pow256(w)
    ensures FromBigEndian(BigEndian(n, w)) == n
  {
    if w > 0 {
      BigEndianInverse(n / 256, w - 1);
      assert BigEndian(n, w)[..w - 1] == BigEndian(n / 256, w - 1);
    }
  }

  lemma {:induction false} FromBigEndianInverse(b: seq<byte>)
    ensures BigEndian(FromBigEndian(b), |b|) == b
  {
    if b != [] {
      FromBigEndianInverse(b[..|b| - 1]);
    }
  }

  /** The bytes of `n` without a leading zero. */
  function Minimal(n: nat): (r: seq<byte>)
    ensures n > 0 ==> |r| > 0 && r[0] != 0
    ensures n == 0 ==> r == []
  {
    if n == 0 then [] else Minimal(n / 256) + [n % 256]
  }

  lemma {:induction false} MinimalInverse(n: nat)
    ensures FromBigEndian(Minimal(n)) == n
  {
    if n > 0 {
      MinimalInverse(n / 256);
      assert Minimal(n)[..|Minimal(n)| - 1] == Minimal(n / 256);
    }
  }

  lemma {:induction false} FromMinimal(b: seq<byte>)
    requires b == [] || b[0] != 0
    ensures Minimal(FromBigEndian(b)) == b
    ensures b != [] ==> FromBigEndian(b) > 0
    decreases |b|
  {
    if b != [] {
      var c := b[..|b| - 1];
      assert c != [] ==> c[0] == b[0];
      FromMinimal(c);
    }
  }

  lemma {:induction false} MinimalWidth(b: seq<byte>)
    requires b != [] && b[0] != 0
    ensures Pow256(|b| - 1) <= FromBigEndian(b) < Pow256(|b|)
    decreases |b|
  {
    FromBigEndianBound(b);
    if |b| > 1 {
      MinimalWidth(b[..|b| - 1]);
    } else {
      assert FromBigEndian(b[..0]) == 0;
    }
  }

  lemma Pow256Eight()
    ensures Pow256(1) == 0x100 && Pow256(2) == 0x1_0000 && Pow256(4) == 0x1_0000_0000 && Pow256(8) == U64
  {
    assert Pow256(3) == 0x100_0000 && Pow256(5) == 0x100_0000_0000 && Pow256(6) == 0x1_0000_0000_0000;
  }

  lemma {:induction false} Pow256Grows(a: nat, b: nat)
    requires a <= b
    ensures Pow256(a) <= Pow256(b)
  {
    if a < b {
      Pow256Grows(a, b - 1);
    }
  }
}

module Args {
  import opened Bytes

  const INLINE_MAX := 11
  const ARG_U8 := 0x0C
  const ARG_U16 := 0x0D
  const ARG_U32 := 0x0E
  const ARG_U64 := 0x0F
  const ARG_EXT := 0x10
  const EXT_MIN_LEN := 9

  /** The minimal selector for `n`. */
  function ArgForm(n: u64): (f: byte)
    ensures f <= ARG_U64
  {
    if n <= INLINE_MAX then n
    else if n <= 0xFF then ARG_U8
    else if n <= 0xFFFF then ARG_U16
    else if n <= 0xFFFFFFFF then ARG_U32
    else ARG_U64
  }

  /** Payload bytes that follow a selector. */
  function ArgWidth(form: byte): nat {
    if form == ARG_U8 then 1
    else if form == ARG_U16 then 2
    else if form == ARG_U32 then 4
    else if form == ARG_U64 then 8
    else 0
  }

  /** The largest value a form one narrower can carry: at or below it a payload is not minimal. */
  function Floor(form: byte): int {
    if form == ARG_U8 then INLINE_MAX
    else if form == ARG_U16 then 0xFF
    else if form == ARG_U32 then 0xFFFF
    else 0xFFFFFFFF
  }

  function ArgPayload(n: u64): seq<byte> { BigEndian(n, ArgWidth(ArgForm(n))) }

  /** A bare argument: selector, then payload. */
  function ArgBytes(n: u64): seq<byte> { [ArgForm(n)] + ArgPayload(n) }

  /** A token head: class in the high nibble, selector in the low one, then payload. */
  function TokenBytes(cls: byte, n: u64): seq<byte>
    requires cls < 16
  {
    [cls * 16 + ArgForm(n)] + ArgPayload(n)
  }

  /** The payload of `form` at `at`, rejected unless minimal. */
  function ParsePayload(input: seq<byte>, at: nat, form: byte): (r: Parse<u64>)
    requires at <= |input|
    ensures r.Ok? ==> at <= r.next <= |input|
  {
    if form <= INLINE_MAX then Ok(form, at)
    else if form > ARG_U64 then Err(MalformedOp)
    else
      var w := ArgWidth(form);
      if |input| < at + w then Err(Truncated)
      else
        var b := input[at..at + w];
        FromBigEndianBound(b);
        Pow256Eight();
        Pow256Grows(w, 8);
        var v := FromBigEndian(b);
        if v <= Floor(form) then Err(MalformedArg) else Ok(v, at + w)
  }

  function ParseByte(input: seq<byte>, at: nat): (r: Parse<byte>)
    requires at <= |input|
    ensures r.Ok? ==> r.next == at + 1 <= |input|
  {
    if at == |input| then Err(Truncated) else Ok(input[at], at + 1)
  }

  function ParseArg(input: seq<byte>, at: nat): (r: Parse<u64>)
    requires at <= |input|
    ensures r.Ok? ==> at < r.next <= |input|
  {
    var (form, next) :- ParseByte(input, at);
    ParsePayload(input, next, form)
  }

  /** The low nibble of a token head of the given class. */
  function ParseFirst(input: seq<byte>, at: nat, cls: byte): (r: Parse<byte>)
    requires at <= |input|
    ensures r.Ok? ==> r.next == at + 1 <= |input| && r.value < 16
  {
    var (b, next) :- ParseByte(input, at);
    if b / 16 != cls then Err(MalformedOp) else Ok(b % 16, next)
  }

  function ParseToken(input: seq<byte>, at: nat, cls: byte): (r: Parse<u64>)
    requires at <= |input|
    ensures r.Ok? ==> at < r.next <= |input|
  {
    var (form, next) :- ParseFirst(input, at, cls);
    ParsePayload(input, next, form)
  }

  /** The next `n` bytes. */
  function ParseRaw(input: seq<byte>, at: nat, n: nat): (r: Parse<seq<byte>>)
    requires at <= |input|
    ensures r.Ok? ==> r.next == at + n <= |input| && r.value == input[at..r.next]
  {
    if |input| < at + n then Err(Truncated) else Ok(input[at..at + n], at + n)
  }

  /** A token of the given class and form with `n` raw bytes. */
  function ParseFixed(input: seq<byte>, at: nat, cls: byte, form: byte, n: nat): (r: Parse<seq<byte>>)
    requires at <= |input|
    ensures r.Ok? ==> at < r.next <= |input|
  {
    var (f, next) :- ParseFirst(input, at, cls);
    if f != form then Err(MalformedOp) else ParseRaw(input, next, n)
  }

  /** `b` stands in `input` at position `at`. */
  ghost predicate At(input: seq<byte>, at: nat, b: seq<byte>) {
    at + |b| <= |input| && input[at..at + |b|] == b
  }

  lemma AtSplit(input: seq<byte>, at: nat, a: seq<byte>, b: seq<byte>)
    ensures At(input, at, a + b) <==> At(input, at, a) && At(input, at + |a|, b)
  {
    if At(input, at, a + b) {
      var s := input[at..at + |a + b|];
      assert s[..|a|] == a && s[|a|..] == b;
      assert input[at..at + |a|] == s[..|a|];
      assert input[at + |a|..at + |a| + |b|] == s[|a|..];
    }
    if At(input, at, a) && At(input, at + |a|, b) {
      assert input[at..at + |a + b|] == input[at..at + |a|] + input[at + |a|..at + |a| + |b|];
    }
  }

  lemma AtNothing(input: seq<byte>, at: nat)
    requires at <= |input|
    ensures At(input, at, [])
  {
  }

  lemma AtHead(input: seq<byte>, at: nat, b: byte, rest: seq<byte>)
    ensures At(input, at, [b] + rest) <==> at < |input| && input[at] == b && At(input, at + 1, rest)
  {
    AtSplit(input, at, [b], rest);
    if at < |input| {
      assert input[at..at + 1] == [input[at]];
    }
  }

  /** Reading inverts writing, wherever the payload stands. */
  lemma PayloadRoundTrip(input: seq<byte>, at: nat, n: u64)
    requires At(input, at, ArgPayload(n))
    ensures ParsePayload(input, at, ArgForm(n)) == Ok(n, at + |ArgPayload(n)|)
  {
    Pow256Eight();
    if n > INLINE_MAX {
      BigEndianInverse(n, ArgWidth(ArgForm(n)));
    }
  }

  /** Whatever is accepted is what the writer would have produced: no second spelling. */
  lemma PayloadCanonical(input: seq<byte>, at: nat, form: byte)
    requires at <= |input| && ParsePayload(input, at, form).Ok?
    ensures var r := ParsePayload(input, at, form);
            ArgForm(r.value) == form && At(input, at, ArgPayload(r.value)) && r.next == at + |ArgPayload(r.value)|
  {
    Pow256Eight();
    if form > INLINE_MAX {
      var b := input[at..at + ArgWidth(form)];
      FromBigEndianBound(b);
      FromBigEndianInverse(b);
    }
  }

  lemma ArgRoundTrip(input: seq<byte>, at: nat, n: u64)
    requires At(input, at, ArgBytes(n))
    ensures ParseArg(input, at) == Ok(n, at + |ArgBytes(n)|)
  {
    AtSplit(input, at, [ArgForm(n)], ArgPayload(n));
    PayloadRoundTrip(input, at + 1, n);
  }

  lemma ArgCanonical(input: seq<byte>, at: nat)
    requires at <= |input| && ParseArg(input, at).Ok?
    ensures var r := ParseArg(input, at); At(input, at, ArgBytes(r.value)) && r.next == at + |ArgBytes(r.value)|
  {
    PayloadCanonical(input, at + 1, input[at]);
    AtSplit(input, at, [input[at]], ArgPayload(ParseArg(input, at).value));
  }

  lemma TokenRoundTrip(input: seq<byte>, at: nat, cls: byte, n: u64)
    requires cls < 16 && At(input, at, TokenBytes(cls, n))
    ensures ParseToken(input, at, cls) == Ok(n, at + |TokenBytes(cls, n)|)
  {
    AtSplit(input, at, [cls * 16 + ArgForm(n)], ArgPayload(n));
    PayloadRoundTrip(input, at + 1, n);
  }

  lemma TokenCanonical(input: seq<byte>, at: nat, cls: byte)
    requires cls < 16 && at <= |input| && ParseToken(input, at, cls).Ok?
    ensures var r := ParseToken(input, at, cls);
            At(input, at, TokenBytes(cls, r.value)) && r.next == at + |TokenBytes(cls, r.value)|
  {
    PayloadCanonical(input, at + 1, input[at] % 16);
    AtSplit(input, at, [input[at]], ArgPayload(ParseToken(input, at, cls).value));
  }
}

/** Zigzag images and BIGINT value bodies. */
module Integers {
  import opened Bytes
  import opened Args

  const I63: int := 0x8000_0000_0000_0000

  type i64 = n: int | -I63 <= n < I63

  /** The machine shift: the low 64 bits of twice `n`. */
  function ShiftLeft(n: i64): u64 { (2 * n) % U64 }

  /** The arithmetic shift by 63: all ones for a negative number. */
  function SignMask(n: i64): u64 { if n < 0 then U64 - 1 else 0 }

  /** Exclusive or with a mask of all zeros or all ones. */
  function XorMask(x: u64, mask: u64): u64
    requires mask == 0 || mask == U64 - 1
  {
    if mask == 0 then x else U64 - 1 - x
  }

  function Zigzag(n: i64): u64 { XorMask(ShiftLeft(n), SignMask(n)) }

  /** In two's complement, exclusive or with -1 is the complement. */
  function Unzigzag(u: u64): i64 {
    if u % 2 == 0 then u / 2 else -(u / 2) - 1
  }

  function ZigzagBig(n: int): nat {
    var u := 2 * (if n < 0 then -n else n);
    if n < 0 then u - 1 else u
  }

  function UnzigzagBig(u: nat): int {
    if u % 2 == 1 then -(u / 2) - 1 else u / 2
  }

  /** The machine image is the mathematical one: no information is lost to wrap-around. */
  lemma ZigzagExact(n: i64)
    ensures Zigzag(n) == ZigzagBig(n)
  {
  }

  /** Zigzag is a bijection between int64 and uint64. */
  lemma ZigzagBijection(n: i64, u: u64)
    ensures Unzigzag(Zigzag(n)) == n && Zigzag(Unzigzag(u)) == u
  {
    ZigzagExact(n);
    ZigzagExact(Unzigzag(u));
  }

  lemma ZigzagBigBijection(n: int, u: nat)
    ensures UnzigzagBig(ZigzagBig(n)) == n && ZigzagBig(UnzigzagBig(u)) == u
  {
  }

  /** A BIGINT position holds a nil pointer or an integer. */
  datatype Bigint = NilInt | Int(n: int)

  /** Zero and nil share one encoding, which reads back as nil. */
  function Merged(v: Bigint): Bigint { if v == Int(0) then NilInt else v }

  /** The extended form: selector, minimal length, magnitude. */
  function ExtBytes(b: seq<byte>): seq<byte>
    requires |b| < U64
  {
    [ARG_EXT] + ArgBytes(|b|) + b
  }

  /** A length the writer can express. */
  predicate Encodable(v: Bigint) { v.Int? ==> |Minimal(ZigzagBig(v.n))| < U64 }

  function BigintBytes(v: Bigint): seq<byte>
    requires Encodable(v)
  {
    match v
    case NilInt => [0]
    case Int(n) =>
      var u := ZigzagBig(n);
      if u < U64 then ArgBytes(u) else ExtBytes(Minimal(u))
  }

  /** The extended argument after its selector: length at least 9, no leading zero, within the budget. */
  function ParseExt(input: seq<byte>, at: nat, maxLen: u64): (r: Parse<seq<byte>>)
    requires at <= |input|
    ensures r.Ok? ==> at < r.next <= |input| && |r.value| >= EXT_MIN_LEN && r.value[0] != 0
  {
    var (n, next) :- ParseArg(input, at);
    if n < EXT_MIN_LEN then Err(MalformedArg)
    else if n > maxLen then Err(Budget)
    else if |input| < next + n then Err(Truncated)
    else
      var b := input[next..next + n];
      if b[0] == 0 then Err(MalformedArg) else Ok(b, next + n)
  }

  function ParseBigint(input: seq<byte>, at: nat, maxLen: u64): (r: Parse<Bigint>)
    requires at <= |input|
    ensures r.Ok? ==> at < r.next <= |input|
  {
    var (b, next) :- ParseByte(input, at);
    if b == 0 then Ok(NilInt, next)
    else if b != ARG_EXT then
      var (u, end) :- ParsePayload(input, next, b);
      Ok(Int(Unzigzag(u)), end)
    else
      var (m, end) :- ParseExt(input, next, maxLen);
      Ok(Int(UnzigzagBig(FromBigEndian(m))), end)
  }

  /** Nine or more bytes are needed exactly from 2^64 on. */
  lemma ExtWidth(b: seq<byte>)
    requires b != [] && b[0] != 0
    ensures FromBigEndian(b) < U64 <==> |b| < EXT_MIN_LEN
  {
    MinimalWidth(b);
    Pow256Eight();
    if |b| <= 8 {
      Pow256Grows(|b|, 8);
    } else {
      Pow256Grows(8, |b| - 1);
    }
  }

  lemma ExtRoundTrip(input: seq<byte>, at: nat, m: seq<byte>, maxLen: u64)
    requires EXT_MIN_LEN <= |m| <= maxLen && m[0] != 0 && At(input, at, ArgBytes(|m|) + m)
    ensures ParseExt(input, at, maxLen) == Ok(m, at + |ArgBytes(|m|)| + |m|)
  {
    AtSplit(input, at, ArgBytes(|m|), m);
    ArgRoundTrip(input, at, |m|);
  }

  lemma ExtCanonical(input: seq<byte>, at: nat, maxLen: u64)
    requires at <= |input| && ParseExt(input, at, maxLen).Ok?
    ensures var r := ParseExt(input, at, maxLen);
            |r.value| < U64 && At(input, at, ArgBytes(|r.value|) + r.value)
              && r.next == at + |ArgBytes(|r.value|)| + |r.value|
  {
    ArgCanonical(input, at);
    var m := ParseExt(input, at, maxLen).value;
    AtSplit(input, at, ArgBytes(|m|), m);
  }

  lemma SmallMinimal(u: u64)
    ensures |Minimal(u)| < EXT_MIN_LEN
  {
    MinimalInverse(u);
    if u > 0 {
      ExtWidth(Minimal(u));
    }
  }

  /** Every integer, of any size, reads back as written; zero reads back as nil. */
  lemma BigintRoundTrip(input: seq<byte>, at: nat, v: Bigint, maxLen: u64)
    requires Encodable(v) && At(input, at, BigintBytes(v))
    requires v.Int? ==> |Minimal(ZigzagBig(v.n))| <= maxLen
    ensures ParseBigint(input, at, maxLen) == Ok(Merged(v), at + |BigintBytes(v)|)
  {
    hide ParseExt;
    hide ParsePayload;
    hide Minimal;
    hide FromBigEndian;
    if v.Int? {
      var u := ZigzagBig(v.n);
      ZigzagBigBijection(v.n, u);
      if u < U64 {
        BigintSmallRoundTrip(input, at, v.n, maxLen);
      } else {
        MinimalInverse(u);
        ExtWidth(Minimal(u));
        BigintLargeRoundTrip(input, at, Minimal(u), maxLen);
      }
    }
  }

  lemma BigintLargeRoundTrip(input: seq<byte>, at: nat, m: seq<byte>, maxLen: u64)
    requires EXT_MIN_LEN <= |m| <= maxLen && m[0] != 0 && At(input, at, ExtBytes(m))
    ensures ParseBigint(input, at, maxLen) == Ok(Int(UnzigzagBig(FromBigEndian(m))), at + |ExtBytes(m)|)
  {
    hide FromBigEndian;
    hide ParseExt;
    hide ParsePayload;
    assert ExtBytes(m) == [ARG_EXT] + (ArgBytes(|m|) + m);
    AtSplit(input, at, [ARG_EXT], ArgBytes(|m|) + m);
    assert input[at] == ARG_EXT;
    ExtRoundTrip(input, at + 1, m, maxLen);
  }

  /** A longer magnitude than the budget allows is refused, unread. */
  lemma BigintOverBudget(input: seq<byte>, at: nat, m: seq<byte>, maxLen: u64)
    requires EXT_MIN_LEN <= |m| < U64 && maxLen < |m| && At(input, at, ExtBytes(m))
    ensures at <= |input| && ParseBigint(input, at, maxLen) == Err(Budget)
  {
    hide FromBigEndian;
    hide ParsePayload;
    hide ArgBytes;
    hide ParseArg;
    assert ExtBytes(m) == [ARG_EXT] + (ArgBytes(|m|) + m);
    AtHead(input, at, ARG_EXT, ArgBytes(|m|) + m);
    AtSplit(input, at + 1, ArgBytes(|m|), m);
    ArgRoundTrip(input, at + 1, |m|);
  }

  lemma BigintLargeCanonical(input: seq<byte>, at: nat, maxLen: u64)
    requires at < |input| && input[at] == ARG_EXT && ParseBigint(input, at, maxLen).Ok?
    ensures var r := ParseBigint(input, at, maxLen);
            && r.value.Int? && r.value.n != 0 && U64 <= ZigzagBig(r.value.n) && |Minimal(ZigzagBig(r.value.n))| < U64
            && At(input, at, ExtBytes(Minimal(ZigzagBig(r.value.n))))
              && r.next == at + |ExtBytes(Minimal(ZigzagBig(r.value.n)))|
  {
    hide FromBigEndian;
    hide ParseExt;
    hide ParsePayload;
    var m := ParseExt(input, at + 1, maxLen).value;
    ExtCanonical(input, at + 1, maxLen);
    FromMinimal(m);
    ExtWidth(m);
    ZigzagBigBijection(0, FromBigEndian(m));
    assert input[at..at + 1] == [ARG_EXT];
    AtSplit(input, at, [ARG_EXT], ArgBytes(|m|) + m);
    assert ExtBytes(m) == [ARG_EXT] + (ArgBytes(|m|) + m);
  }

  lemma BigintSmallRoundTrip(input: seq<byte>, at: nat, n: int, maxLen: u64)
    requires ZigzagBig(n) < U64 && At(input, at, ArgBytes(ZigzagBig(n)))
    ensures ParseBigint(input, at, maxLen) == Ok(Merged(Int(n)), at + |ArgBytes(ZigzagBig(n))|)
  {
    hide ParsePayload;
    hide ParseExt;
    hide FromBigEndian;
    hide ArgPayload;
    hide ZigzagBig;
    hide Unzigzag;
    var u: u64 := ZigzagBig(n);
    AtHead(input, at, ArgForm(u), ArgPayload(u));
    hide At;
    PayloadRoundTrip(input, at + 1, u);
    SmallImage(n);
  }

  lemma SmallImage(n: int)
    requires ZigzagBig(n) < U64
    ensures Unzigzag(ZigzagBig(n)) == n && (ZigzagBig(n) == 0 <==> n == 0)
    ensures ArgForm(ZigzagBig(n)) == 0 <==> n == 0
    ensures n == 0 ==> |ArgPayload(ZigzagBig(n))| == 0
  {
  }

  lemma BigintSmallCanonical(input: seq<byte>, at: nat, maxLen: u64)
    requires at < |input| && input[at] != 0 && input[at] != ARG_EXT && ParseBigint(input, at, maxLen).Ok?
    ensures var r := ParseBigint(input, at, maxLen);
            && r.value.Int? && r.value.n != 0 && ZigzagBig(r.value.n) < U64
            && At(input, at, ArgBytes(ZigzagBig(r.value.n))) && r.next == at + |ArgBytes(ZigzagBig(r.value.n))|
  {
    var p := ParsePayload(input, at + 1, input[at]);
    ArgCanonical(input, at);
    PayloadCanonical(input, at + 1, input[at]);
    ZigzagBijection(0, p.value);
    ZigzagExact(Unzigzag(p.value));
  }

  /** There is one accepted encoding per integer: accepted bytes are the writer's. */
  lemma BigintCanonical(input: seq<byte>, at: nat, maxLen: u64)
    requires at <= |input| && ParseBigint(input, at, maxLen).Ok?
    ensures var r := ParseBigint(input, at, maxLen);
            Encodable(r.value) && At(input, at, BigintBytes(r.value)) && r.next == at + |BigintBytes(r.value)|
    ensures ParseBigint(input, at, maxLen).value != Int(0)
  {
    hide ParseExt;
    hide ParsePayload;
    hide Minimal;
    var r := ParseBigint(input, at, maxLen);
    if input[at] != 0 && input[at] != ARG_EXT {
      BigintSmallCanonical(input, at, maxLen);
      SmallMinimal(ZigzagBig(r.value.n));
    } else if input[at] == ARG_EXT {
      BigintLargeCanonical(input, at, maxLen);
    }
  }
}
