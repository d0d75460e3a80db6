/**
  The sliding-window reader over a source that delivers in pieces (internal/wire/wire.go:392-447,
  569-648; internal/wire/codec_helpers.go:253-277). Whatever the pieces, every read behaves as a read of
  the flat byte string.
 */
module StreamReaders {
  import opened Bytes
  import opened Args

  const LARGE_READ := 0x10_0000
  const FILL_CHUNK := 0x1_0000
  const READ_DIRECT_INIT := 0x1_0000
  const READ_DIRECT_MAX_GROW := 0x10_0000
  const CLASS_REF: byte := 0xC

  /** Unread bytes the window may hold while the source has more: what keeps a large read from over-reading. */
  const LOOKAHEAD := LARGE_READ - READ_DIRECT_INIT

  datatype Option = None | Some(id: u64)

  datatype Result<+T> = Value(v: T) | Fault(fault: Fault)

  function Max(a: int, b: int): int { if a < b then b else a }

  function Min(a: int, b: int): int { if a < b then a else b }

  /** A source: a byte string and, at each offset, how many bytes it would hand out at once. */
  class Source {
    const stream: seq<byte>
    const offers: nat -> nat
    var taken: nat

    constructor (stream: seq<byte>, offers: nat -> nat)
      ensures this.stream == stream && this.offers == offers && taken == 0
    {
      this.stream, this.offers, taken := stream, offers, 0;
    }

    /** Delivers at least one and at most `room` bytes, or reports the end. */
    method Read(room: nat) returns (b: seq<byte>, end: bool)
      requires taken <= |stream| && room > 0
      modifies this
      ensures end <==> old(taken) == |stream|
      ensures end ==> b == []
      ensures !end ==> 1 <= |b| <= room
      ensures taken == old(taken) + |b| <= |stream| && b == stream[old(taken)..taken]
    {
      var n := Min(Max(1, offers(taken)), Min(room, |stream| - taken));
      b, end := stream[taken..taken + n], taken == |stream|;
      taken := taken + n;
    }
  }

  lemma SliceOfSlice(s: seq<byte>, a: nat, b: nat, i: nat, j: nat)
    requires a <= b <= |s| && i <= j <= b - a
    ensures s[a..b][i..j] == s[a + i..a + j]
  {
    assert forall k :: 0 <= k < j - i ==> s[a..b][i..j][k] == s[a + i..a + j][k];
  }

  lemma Appended(s: seq<byte>, a: nat, b: nat, c: nat)
    requires a <= b <= c <= |s|
    ensures s[a..c] == s[a..b] + s[b..c]
  {
  }

  class StreamReader {
    const src: Source
    var buf: seq<byte>
    var pos: nat
    var base: nat
    /** Free capacity behind the window. */
    var spare: nat
    var eof: bool
    /** The lookahead token armed by PeekRef: its place in the window and its id. */
    var pendStart: int
    var pendLen: int
    var peekID: u64
    /** The absolute offset at which it was armed. */
    ghost var armedAt: nat

    /** The window is exactly what the source delivered from `base` on. */
    ghost predicate Window()
      reads this, src
    {
      && pos <= |buf| && base + |buf| == src.taken <= |src.stream| && buf == src.stream[base..src.taken]
      && (eof ==> src.taken == |src.stream|)
    }

    /** The armed token is the REF token at `armedAt`; its end has not been passed. */
    ghost predicate Armed()
      reads this, src
    {
      && 0 <= pendLen
      && (pendLen > 0 ==>
            && 0 <= pendStart && pos < pendStart + pendLen <= |buf| && armedAt <= |src.stream|
            && ParseToken(src.stream, armedAt, CLASS_REF) == Ok(peekID, base + pendStart + pendLen))
    }

    ghost predicate Valid()
      reads this, src
    {
      Window() && Armed() && (!eof ==> |buf| - pos <= LOOKAHEAD && spare <= FILL_CHUNK)
    }

    /** The window has not moved: nothing was pulled, nothing dropped. */
    twostate predicate Still()
      reads this, src
    {
      buf == old(buf) && base == old(base) && spare == old(spare) && eof == old(eof) && src.taken == old(src.taken)
    }

    /** No read is in the middle of the armed token. */
    ghost predicate AtBoundary()
      reads this
    {
      pendLen > 0 ==> armedAt == Pos()
    }

    /** The absolute offset of the next unread byte. */
    function Pos(): nat
      reads this
    {
      base + pos
    }

    constructor (stream: seq<byte>, offers: nat -> nat)
      ensures Valid() && AtBoundary() && Pos() == 0 && src.stream == stream && fresh(src)
    {
      src := new Source(stream, offers);
      buf, pos, base, spare, eof := [], 0, 0, 0, false;
      pendStart, pendLen, peekID, armedAt := 0, 0, 0, 0;
    }

    /** Drops the consumed prefix; an armed token moves with the window. */
    method Compact()
      requires Window() && Armed()
      modifies this`buf, this`pos, this`base, this`spare, this`pendStart, this`pendLen
      ensures Window() && Armed() && Pos() == old(Pos()) && pos == 0 && |buf| == old(|buf| - pos)
      ensures spare <= old(spare) && (pendLen > 0 <==> old(pendLen) > 0)
    {
      if pendLen > 0 {
        if pos < pendStart {
          pendStart := pendStart - pos;
        } else {
          pendLen := Max(pendStart + pendLen - pos, 0);
          pendStart := 0;
        }
      }
      base := base + pos;
      buf := buf[pos..];
      if |buf| == 0 {
        spare := 0;
      }
      pos := 0;
    }

    /** One read from the source, with room for what is still missing of `n`. */
    method Pull(n: nat)
      requires Window() && Armed() && !eof && |buf| - pos < n && spare <= Max(n - (|buf| - pos), FILL_CHUNK)
      modifies this`buf, this`pos, this`base, this`spare, this`eof, this`pendStart, this`pendLen, src
      ensures Window() && Armed() && Pos() == old(Pos()) && (pendLen > 0 <==> old(pendLen) > 0)
      ensures eof || |buf| - pos > old(|buf| - pos)
      ensures !eof ==> spare <= Max(n - (|buf| - pos), FILL_CHUNK) && |buf| - pos <= n + FILL_CHUNK
      ensures !eof ==> src.taken > old(src.taken)
    {
      hide ParseToken;
      if pos >= LARGE_READ {
        Compact();
      }
      var need := Max(n - (|buf| - pos), FILL_CHUNK);
      if spare < need {
        spare := need;
      }
      Append();
    }

    /** What the source offers goes behind the window. */
    method Append()
      requires Window() && Armed() && !eof && spare > 0
      modifies this`buf, this`spare, this`eof, src
      ensures Window() && Armed() && |buf| == |old(buf)| + src.taken - old(src.taken)
      ensures spare + |buf| == old(spare + |buf|)
      ensures eof <==> src.taken == old(src.taken)
      ensures src.taken >= old(src.taken)
    {
      hide ParseToken;
      var b, end := src.Read(spare);
      Appended(src.stream, base, base + |buf|, src.taken);
      buf := buf + b;
      spare := spare - |b|;
      eof := end;
    }

    /** Pulls until `n` bytes are available or the source ends. */
    method Fill(n: nat)
      requires Valid() && n <= LARGE_READ
      modifies this`buf, this`pos, this`base, this`spare, this`eof, this`pendStart, this`pendLen, src
      ensures Window() && Armed() && Pos() == old(Pos()) && (pendLen > 0 <==> old(pendLen) > 0)
      ensures |buf| - pos >= n || eof
      ensures !eof ==> spare <= FILL_CHUNK && |buf| - pos <= Max(old(|buf| - pos), n + FILL_CHUNK)
      ensures n <= FILL_CHUNK ==> Valid()
      ensures old(|buf| - pos >= n || eof) ==> unchanged(this, src)
    {
      hide ParseToken;
      ghost var avail := |buf| - pos;
      while |buf| - pos < n && !eof
        invariant Window() && Armed() && Pos() == old(Pos()) && (pendLen > 0 <==> old(pendLen) > 0)
        invariant !eof ==> spare <= Max(n - (|buf| - pos), FILL_CHUNK) && |buf| - pos <= Max(avail, n + FILL_CHUNK)
        invariant old(|buf| - pos >= n || eof) ==> unchanged(this, src)
        decreases !eof, |src.stream| - src.taken
      {
        Pull(n);
      }
    }

    /** Retires the armed token once it has been consumed. */
    method ReleasePending()
      requires Window() && 0 <= pendLen
      requires pendLen > 0 && pos < pendStart + pendLen ==> Armed()
      modifies this`pendLen
      ensures Window() && Armed() && (pendLen > 0 ==> pos < pendStart + pendLen)
              && (pendLen > 0 ==> pendLen == old(pendLen))
    {
      if pendLen > 0 && pos >= pendStart + pendLen {
        pendLen := 0;
      }
    }

    /** The next byte, as if read from the flat string. */
    method ByteAt() returns (r: Result<byte>)
      requires Valid()
      modifies this, src
      ensures Valid()
      ensures if old(Pos()) < |src.stream| then r == Value(src.stream[old(Pos())]) && Pos() == old(Pos()) + 1
              else r == Fault(Truncated) && Pos() == old(Pos())
      ensures armedAt == old(armedAt) && (pendLen > 0 ==> old(pendLen) > 0)
      ensures old(|buf| - pos >= 1 || eof) ==> Still()
    {
      hide ParseToken;
      if pos >= |buf| {
        Fill(1);
      }
      if pos >= |buf| {
        return Fault(Truncated);
      }
      r := Value(buf[pos]);
      pos := pos + 1;
      ReleasePending();
    }

    /** What a read of `n` bytes must deliver. */
    ghost predicate Delivers(r: Result<seq<byte>>, at: nat, n: nat)
      reads this, src
    {
      if at + n <= |src.stream| then r == Value(src.stream[at..at + n]) && Pos() == at + n else r == Fault(Truncated)
    }

    /**
      Serves a read larger than the window outside it. The buffer grows as bytes arrive: `room`, its capacity, is
      at most twice what was delivered plus 64 KiB, and not one byte beyond the read is taken from the source.
     */
    method ReadDirect(n: nat) returns (r: Result<seq<byte>>, room: nat)
      requires Valid() && n > LARGE_READ && n > |buf| - pos
      modifies this, src
      ensures Valid() && pendLen == 0 && armedAt == old(armedAt) && Delivers(r, old(Pos()), n) && Pos() == src.taken
      ensures room <= 2 * (Pos() - old(Pos())) + READ_DIRECT_INIT
    {
      hide ParseToken;
      hide Armed;
      ghost var at := Pos();
      var pending := |buf| - pos;
      var out := buf[pos..];
      room := pending + READ_DIRECT_INIT;
      base := base + pos + pending;
      buf, pos, spare, pendLen := [], 0, 0, 0;
      while |out| < n
        invariant Window() && buf == [] && pos == 0 && spare == 0 && pendLen == 0 && base == at + |out|
                  && armedAt == old(armedAt)
        invariant |out| <= n && out == src.stream[at..base]
        invariant READ_DIRECT_INIT <= room && |out| <= room <= 2 * |out| + READ_DIRECT_INIT
        invariant room <= n || src.taken == |src.stream|
        decreases |src.stream| - src.taken
      {
        hide Window;
        if |out| == room {
          room := room + Min(Min(room, READ_DIRECT_MAX_GROW), n - |out|);
        }
        var end;
        out, end := ReadPiece(out, room, at);
        if end {
          NothingArmed();
          return Fault(Truncated), room;
        }
      }
      NothingArmed();
      r := Value(out);
    }

    /** One read of at most the free room, behind what was read already; the window stays empty. */
    method ReadPiece(out: seq<byte>, room: nat, ghost at: nat) returns (more: seq<byte>, end: bool)
      requires Window() && buf == [] && pos == 0 && |out| < room && base == at + |out| && out == src.stream[at..base]
      modifies this`base, src
      ensures Window() && base == at + |more| && at <= base <= |src.stream| && more == src.stream[at..base]
      ensures |out| <= |more| <= room && src.taken == base
      ensures if end then more == out && base == |src.stream| else |out| < |more|
    {
      var b;
      b, end := src.Read(room - |out|);
      Appended(src.stream, at, base, src.taken);
      more := out + b;
      base := base + |b|;
    }

    lemma NothingArmed()
      requires pendLen == 0
      ensures Armed()
    {
      hide ParseToken;
    }

    /** The next `n` bytes, as if read from the flat string. */
    method ReadN(n: nat) returns (r: Result<seq<byte>>)
      requires Valid()
      modifies this, src
      ensures Valid() && Delivers(r, old(Pos()), n)
      ensures armedAt == old(armedAt) && (pendLen > 0 ==> old(pendLen) > 0)
      ensures old(|buf| - pos >= n || eof) && n <= LARGE_READ ==> Still()
    {
      hide ParseToken;
      if n > |buf| - pos {
        if n > LARGE_READ {
          var room;
          r, room := ReadDirect(n);
          return;
        }
        Fill(n);
        if n > |buf| - pos {
          return Fault(Truncated);
        }
      }
      SliceOfSlice(src.stream, base, src.taken, pos, pos + n);
      r := Value(buf[pos..pos + n]);
      pos := pos + n;
      ReleasePending();
    }

    /** The payload of an argument of the given form. */
    method ReadPayload(form: byte) returns (r: Result<u64>)
      requires Valid()
      modifies this, src
      ensures Valid() && armedAt == old(armedAt) && (pendLen > 0 ==> old(pendLen) > 0)
      ensures old(Pos()) <= |src.stream|
      ensures match ParsePayload(src.stream, old(Pos()), form)
              case Ok(v, next) => r == Value(v) && Pos() == next
              case Err(f) => r == Fault(f)
      ensures old(|buf| - pos >= ArgWidth(form) || eof) ==> Still()
    {
      hide ParseToken;
      if form <= INLINE_MAX {
        return Value(form);
      }
      if form > ARG_U64 {
        return Fault(MalformedOp);
      }
      var b := ReadN(ArgWidth(form));
      if b.Fault? {
        return Fault(b.fault);
      }
      FromBigEndianBound(b.v);
      Pow256Eight();
      Pow256Grows(ArgWidth(form), 8);
      var v := FromBigEndian(b.v);
      if v <= Floor(form) {
        return Fault(MalformedArg);
      }
      r := Value(v);
    }

    /** A token of the given class with its argument. */
    method ReadTokenArg(cls: byte) returns (r: Result<u64>)
      requires Valid()
      modifies this, src
      ensures Valid() && armedAt == old(armedAt) && (pendLen > 0 ==> old(pendLen) > 0)
      ensures old(Pos()) <= |src.stream|
      ensures match ParseToken(src.stream, old(Pos()), cls)
              case Ok(v, next) => r == Value(v) && Pos() == next
              case Err(f) => r == Fault(f)
      ensures old(pos < |buf| && (|buf| - pos >= 1 + ArgWidth(buf[pos] % 16) || eof)) ==> Still()
    {
      hide ParsePayload;
      var b := ByteAt();
      if b.Fault? {
        return Fault(b.fault);
      }
      if b.v / 16 != cls {
        return Fault(MalformedOp);
      }
      r := ReadPayload(b.v % 16);
    }

    /** The class of the next token, without consuming it. */
    method PeekFirst() returns (r: Result<byte>)
      requires Valid()
      modifies this`buf, this`pos, this`base, this`spare, this`eof, this`pendStart, this`pendLen, src
      ensures Valid() && Pos() == old(Pos()) && (pendLen > 0 <==> old(pendLen) > 0)
      ensures if Pos() < |src.stream| then r == Value(src.stream[Pos()] / 16) && pos < |buf| else r == Fault(Truncated)
    {
      hide ParseToken;
      if pos >= |buf| {
        Fill(1);
      }
      if pos >= |buf| {
        return Fault(Truncated);
      }
      r := Value(buf[pos] / 16);
    }

    /**
      The id of a REF token at the current position, if there is one, without consuming anything. The answer is
      the same whether the token was armed before, moved with the window, or is parsed now. Only a cursor that was
      left inside an armed token gets the armed id, wherever the byte under it looks like a REF.
     */
    method PeekRef() returns (r: Option)
      requires Valid()
      modifies this, src
      ensures Valid() && Pos() == old(Pos()) <= |src.stream|
      ensures AtBoundary() == old(AtBoundary())
      ensures AtBoundary() ==>
        match ParseToken(src.stream, Pos(), CLASS_REF)
        case Ok(id, _) => r == Some(id) && pendLen > 0
        case Err(_) => r == None
      ensures !AtBoundary() ==> Pos() < |src.stream|
      ensures !AtBoundary() ==> r == if src.stream[Pos()] / 16 == CLASS_REF then Some(old(peekID)) else None
    {
      var cls := PeekFirst();
      if cls.Fault? || cls.v != CLASS_REF {
        return None;
      }
      if pendLen == 0 {
        r := Arm();
        return;
      }
      r := Some(peekID);
    }

    /** Brings exactly the extent of the token at the cursor into the window, or all there is. */
    method FillToken()
      requires Valid() && pendLen == 0 && pos < |buf|
      modifies this`buf, this`pos, this`base, this`spare, this`eof, this`pendStart, this`pendLen, src
      ensures Valid() && pendLen == 0 && Pos() == old(Pos()) && pos < |buf|
      ensures |buf| - pos >= 1 + ArgWidth(buf[pos] % 16) || eof
    {
      hide ParseToken;
      hide Armed;
      ghost var at := Pos();
      assert Armed();
      assert buf[pos] == src.stream[at];
      Fill(1 + ArgWidth(buf[pos] % 16));
      assert pendLen == 0 by { Unarmed(); }
      assert pos < |buf| ==> buf[pos] == src.stream[at];
    }

    lemma Unarmed()
      requires Armed() && !(pendLen > 0)
      ensures pendLen == 0
    {
      hide ParseToken;
    }

    /** Parses the token at the cursor and moves back; `end` is where it ends in the window. */
    method ParseHere() returns (id: Result<u64>, end: nat)
      requires Valid() && pendLen == 0 && pos < |buf| && (|buf| - pos >= 1 + ArgWidth(buf[pos] % 16) || eof)
      modifies this, src
      ensures Valid() && pendLen == 0 && armedAt == old(armedAt) && Pos() == old(Pos()) <= |src.stream|
      ensures match ParseToken(src.stream, Pos(), CLASS_REF)
              case Ok(v, next) => id == Value(v) && base + end == next && pos < end <= |buf|
              case Err(f) => id == Fault(f)
    {
      hide ParseToken;
      var start := pos;
      id := ReadTokenArg(CLASS_REF);
      end := pos;
      pos := start;
    }

    /** Parses the token at the cursor, moves back, and keeps the outcome. */
    method Arm() returns (r: Option)
      requires Valid() && pendLen == 0 && pos < |buf|
      modifies this, src
      ensures Valid() && AtBoundary() && Pos() == old(Pos()) <= |src.stream|
      ensures match ParseToken(src.stream, Pos(), CLASS_REF)
              case Ok(id, _) => r == Some(id) && pendLen > 0
              case Err(_) => r == None
    {
      hide ParseToken;
      FillToken();
      var id, end := ParseHere();
      if id.Fault? {
        return None;
      }
      pendStart, pendLen, peekID := pos, end - pos, id.v;
      armedAt := base + pos;
      r := Some(id.v);
    }

    /** Releases the consumed prefix at a record boundary. */
    method Discard()
      requires Valid()
      modifies this
      ensures Valid() && Pos() == old(Pos()) && (old(AtBoundary()) ==> AtBoundary())
    {
      if pos > 0 {
        Compact();
      }
    }
  }
}