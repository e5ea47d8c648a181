/** The streaming parser as the source has it: a fixed 255-byte buffer, a running CRC, an
    in-flight flag and counters, all updated in place one byte at a time. */
module UartStream {
  import opened Crc16
  import opened UartMachine

  const MAX_PAYLOAD: nat := 255

  datatype State = WaitSof1 | WaitSof2 | Length | Type | Payload | CrcLo | CrcHi

  datatype ParserStats = ParserStats(
    validPackets: nat,
    crcFailures: nat,
    syncLosses: nat,
    discardedBytes: nat,
    partialPackets: nat)

  const NO_STATS := ParserStats(0, 0, 0, 0, 0)

  /** Bookkeeping the source does not keep, since the statistics were last cleared: the
      attempts and the verdicts passed on them, the false SOF1 bytes, and what had been
      delivered before. */
  datatype Book = Book(log: seq<Attempt>, verdicts: seq<bool>, dropped: nat, earlier: seq<Packet>)

  /** Verdict i is the CRC comparison of attempt i. */
  ghost predicate JudgedAt(log: seq<Attempt>, verdicts: seq<bool>, i: nat)
    requires i < |log| == |verdicts|
  {
    verdicts[i] == Good(log[i])
  }

  ghost predicate Judged(log: seq<Attempt>, verdicts: seq<bool>) {
    |log| == |verdicts| && forall i: nat :: i < |log| ==> JudgedAt(log, verdicts, i)
  }

  /** The packets among the first n attempts. */
  ghost function Passed(log: seq<Attempt>, verdicts: seq<bool>, n: nat): seq<Packet>
    requires n <= |log| == |verdicts|
  {
    if n == 0 then []
    else
      var earlier := Passed(log, verdicts, n - 1);
      if verdicts[n - 1] then earlier + [Packet(log[n - 1].ptype, log[n - 1].payload)] else earlier
  }

  lemma {:induction false} PassedIsDelivered(log: seq<Attempt>, verdicts: seq<bool>, n: nat)
    requires Judged(log, verdicts) && n <= |log|
    ensures Passed(log, verdicts, n) == Delivered(log[..n])
  {
    if n > 0 {
      PassedIsDelivered(log, verdicts, n - 1);
      assert JudgedAt(log, verdicts, n - 1);
      assert log[..n] == log[..n - 1] + [log[n - 1]];
      LogVerdict(log[..n - 1], log[n - 1]);
    }
  }

  lemma {:induction false} PassedPrefix(log: seq<Attempt>, verdicts: seq<bool>, a: Attempt, good: bool, n: nat)
    requires n <= |log| == |verdicts|
    ensures Passed(log + [a], verdicts + [good], n) == Passed(log, verdicts, n)
  {
    if n > 0 {
      PassedPrefix(log, verdicts, a, good, n - 1);
    }
  }

  /** The counters and the callback show the book; sync losses are CRC failures. */
  ghost predicate Balanced(stats: ParserStats, delivered: seq<Packet>, book: Book) {
    && Judged(book.log, book.verdicts)
    && delivered == book.earlier + Passed(book.log, book.verdicts, |book.log|)
    && |delivered| == |book.earlier| + stats.validPackets
    && stats.validPackets + stats.crcFailures == |book.log|
    && stats.syncLosses == stats.crcFailures
  }

  /** The book with one more attempt judged. */
  ghost function Entered(book: Book, a: Attempt, good: bool): Book {
    book.(log := book.log + [a], verdicts := book.verdicts + [good])
  }

  lemma BalancedNext(stats: ParserStats, delivered: seq<Packet>, book: Book, a: Attempt, good: bool)
    requires Balanced(stats, delivered, book) && good == Good(a)
    ensures good ==> Balanced(stats.(validPackets := stats.validPackets + 1),
                              delivered + [Packet(a.ptype, a.payload)], Entered(book, a, good))
    ensures !good ==> Balanced(stats.(crcFailures := stats.crcFailures + 1, syncLosses := stats.syncLosses + 1),
                               delivered, Entered(book, a, good))
  {
    PassedPrefix(book.log, book.verdicts, a, good, |book.log|);
    JudgedNext(book.log, book.verdicts, a, good);
  }

  lemma JudgedNext(log: seq<Attempt>, verdicts: seq<bool>, a: Attempt, good: bool)
    requires Judged(log, verdicts) && good == Good(a)
    ensures Judged(log + [a], verdicts + [good])
  {
    forall i: nat | i < |log| + 1
      ensures JudgedAt(log + [a], verdicts + [good], i)
    {
      assert i < |log| ==> JudgedAt(log, verdicts, i);
    }
  }

  /** What a caller reads off balanced counters. */
  lemma BalancedMeaning(stats: ParserStats, delivered: seq<Packet>, book: Book)
    requires Balanced(stats, delivered, book)
    ensures delivered == book.earlier + Delivered(book.log)
    ensures stats.validPackets == |Delivered(book.log)|
    ensures stats.crcFailures == stats.syncLosses == Failures(book.log)
  {
    PassedIsDelivered(book.log, book.verdicts, |book.log|);
    assert book.log[..|book.log|] == book.log;
    VerdictsPartitionTheLog(book.log);
  }

  lemma CrcOfType(ptype: bv8, none: seq<bv8>)
    requires none == []
    ensures Crc([ptype] + none) == Updated(INIT, ptype)
  {
    CrcAppend([], ptype);
    assert [] + [ptype] == [ptype] + none;
  }

  lemma CrcGrows(ptype: bv8, soFar: seq<bv8>, b: bv8)
    ensures Crc([ptype] + (soFar + [b])) == Updated(Crc([ptype] + soFar), b)
  {
    CrcAppend([ptype] + soFar, b);
    assert ([ptype] + soFar) + [b] == [ptype] + (soFar + [b]);
  }

  class UartParser {
    var stats: ParserStats
    var state: State
    var length: nat
    var ptype: bv8
    var payloadIndex: nat
    const payload: array<bv8>
    var runningCrc: bv16
    var crcLo: bv8
    var inFlight: bool

    /** The callback's invocations, in order, each with a copy of the buffer it was shown. */
    var delivered: seq<Packet>

    ghost var book: Book

    ghost function PhaseView(): Phase
      reads this, payload
      requires payloadIndex <= payload.Length
    {
      match state
      case WaitSof1 => Hunting
      case WaitSof2 => Sof1Seen
      case Length => LengthNext
      case Type => TypeNext(length)
      case Payload => PayloadNext(length, ptype, payload[..payloadIndex])
      case CrcLo => CrcLoNext(ptype, payload[..payloadIndex])
      case CrcHi => CrcHiNext(ptype, payload[..payloadIndex], crcLo)
    }

    ghost function View(): Machine
      reads this, payload
      requires payloadIndex <= payload.Length
    {
      Machine(PhaseView(), book.log, stats.discardedBytes, book.dropped, stats.partialPackets)
    }

    /** The running CRC is the CRC of Type and the payload so far. */
    ghost predicate CrcCurrent()
      reads this, payload
      requires payloadIndex <= payload.Length
    {
      runningCrc == Crc([ptype] + payload[..payloadIndex])
    }

    /** in_flight_ holds exactly past SOF2, and the buffer is never overfull. */
    ghost predicate ValidState()
      reads this, payload
    {
      && payload.Length == MAX_PAYLOAD
      && payloadIndex <= MAX_PAYLOAD && length <= MAX_PAYLOAD
      && match state
         case WaitSof1 => !inFlight && payloadIndex == 0
         case WaitSof2 => !inFlight && payloadIndex == 0
         case Length => inFlight
         case Type => inFlight && payloadIndex == 0 && runningCrc == INIT
         case Payload => inFlight && payloadIndex < length && CrcCurrent()
         case CrcLo => inFlight && payloadIndex == length && CrcCurrent()
         case CrcHi => inFlight && payloadIndex == length && CrcCurrent()
    }

    ghost predicate Valid()
      reads this, payload
    {
      ValidState() && Balanced(stats, delivered, book)
    }

    constructor ()
      ensures Valid() && fresh(payload)
      ensures View() == INITIAL && book.earlier == []
    {
      stats, delivered, book := NO_STATS, [], Book([], [], 0, []);
      state, length, ptype, payloadIndex := WaitSof1, 0, 0, 0;
      payload := new bv8[MAX_PAYLOAD];
      runningCrc, crcLo, inFlight := 0, 0, false;
      new;
      assert ValidState();
      assert View() == INITIAL;
    }

    method ToWaitSof1(countSyncLoss: bool)
      modifies this`stats, this`state, this`inFlight, this`payloadIndex
      ensures stats == if countSyncLoss && old(inFlight)
                       then old(stats).(syncLosses := old(stats).syncLosses + 1) else old(stats)
      ensures state == WaitSof1 && !inFlight && payloadIndex == 0
    {
      if countSyncLoss && inFlight {
        stats := stats.(syncLosses := stats.syncLosses + 1);
      }
      state := WaitSof1;
      inFlight := false;
      payloadIndex := 0;
    }

    method HandleFramingError()
      modifies this`stats, this`state, this`inFlight, this`payloadIndex
      ensures stats == if old(inFlight)
                       then old(stats).(syncLosses := old(stats).syncLosses + 1) else old(stats)
      ensures state == WaitSof1 && !inFlight && payloadIndex == 0
    {
      ToWaitSof1(true);
    }

    method Feed(byte: bv8)
      requires Valid()
      modifies this, payload
      ensures Valid() && book.earlier == old(book.earlier)
      ensures View() == Step(old(View()), byte)
    {
      match state
      case WaitSof1 => FeedHunting(byte);
      case WaitSof2 => FeedHunting(byte);
      case Length => FeedLength(byte);
      case Type => FeedType(byte);
      case Payload => FeedPayload(byte);
      case CrcLo => FeedCrcLo(byte);
      case CrcHi => FeedCrcHi(byte);
    }

    method FeedHunting(byte: bv8)
      requires Valid() && (state == WaitSof1 || state == WaitSof2)
      modifies this`state, this`inFlight, this`stats, this`book
      ensures Valid() && book.earlier == old(book.earlier)
      ensures View() == Step(old(View()), byte)
    {
      if state == WaitSof1 {
        if byte == SOF1 {
          state := WaitSof2;
        } else {
          stats := stats.(discardedBytes := stats.discardedBytes + 1);
        }
      } else {
        if byte == SOF2 {
          state := Length;
          inFlight := true;
        } else if byte == SOF1 {
          stats := stats.(discardedBytes := stats.discardedBytes + 1);
          state := WaitSof2;
        } else {
          stats := stats.(discardedBytes := stats.discardedBytes + 1);
          book := book.(dropped := book.dropped + 1);
          state := WaitSof1;
        }
      }
    }

    method FeedLength(byte: bv8)
      requires Valid() && state == Length
      modifies this`state, this`length, this`payloadIndex, this`runningCrc
      ensures Valid()
      ensures View() == old(View()).(phase := TypeNext(byte as nat))
    {
      length := byte as nat;
      payloadIndex := 0;
      runningCrc := INIT;
      state := Type;
    }

    method FeedType(byte: bv8)
      requires Valid() && state == Type
      modifies this`state, this`ptype, this`runningCrc
      ensures Valid()
      ensures View() == old(View()).(phase := AfterPayloadByte(length, byte, []))
    {
      ptype := byte;
      CrcOfType(byte, payload[..0]);
      runningCrc := Update(runningCrc, byte);
      state := if length == 0 then CrcLo else Payload;
    }

    method FeedPayload(byte: bv8)
      requires Valid() && state == Payload
      modifies this`state, this`payloadIndex, this`runningCrc, payload
      ensures Valid()
      ensures View() == old(View()).(phase := AfterPayloadByte(length, ptype, old(payload[..payloadIndex]) + [byte]))
    {
      ghost var before := payload[..payloadIndex];
      CrcGrows(ptype, before, byte);
      payload[payloadIndex] := byte;
      payloadIndex := payloadIndex + 1;
      assert payload[..payloadIndex] == before + [byte];
      runningCrc := Update(runningCrc, byte);
      if payloadIndex >= length {
        state := CrcLo;
      }
    }

    method FeedCrcLo(byte: bv8)
      requires Valid() && state == CrcLo
      modifies this`state, this`crcLo
      ensures Valid()
      ensures View() == old(View()).(phase := CrcHiNext(ptype, payload[..payloadIndex], byte))
    {
      crcLo := byte;
      state := CrcHi;
    }

    method FeedCrcHi(byte: bv8)
      requires Valid() && state == CrcHi
      modifies this`stats, this`state, this`inFlight, this`payloadIndex, this`delivered, this`book
      ensures Valid() && book.earlier == old(book.earlier)
      ensures View() == Step(old(View()), byte)
    {
      var receivedCrc := Join(byte, crcLo);
      if receivedCrc == runningCrc {
        Accept(byte);
      } else {
        Refuse(byte);
      }
    }

    /** The CRC matches: count the packet, hand it to the callback, hunt on. */
    method Accept(ghost byte: bv8)
      requires Valid() && state == CrcHi && Join(byte, crcLo) == runningCrc
      modifies this`stats, this`state, this`inFlight, this`payloadIndex, this`delivered, this`book
      ensures Valid() && book.earlier == old(book.earlier)
      ensures View() == Step(old(View()), byte)
    {
      ghost var a := Attempt(ptype, payload[..payloadIndex], crcLo, byte);
      BalancedNext(stats, delivered, book, a, true);
      book := Entered(book, a, true);
      stats := stats.(validPackets := stats.validPackets + 1);
      delivered := delivered + [Packet(ptype, payload[..length])];
      ToWaitSof1(false);
    }

    /** It does not: count the failure, hunt on. */
    method Refuse(ghost byte: bv8)
      requires Valid() && state == CrcHi && Join(byte, crcLo) != runningCrc
      modifies this`stats, this`state, this`inFlight, this`payloadIndex, this`book
      ensures Valid() && book.earlier == old(book.earlier)
      ensures View() == Step(old(View()), byte)
    {
      ghost var a := Attempt(ptype, payload[..payloadIndex], crcLo, byte);
      BalancedNext(stats, delivered, book, a, false);
      book := Entered(book, a, false);
      stats := stats.(crcFailures := stats.crcFailures + 1);
      HandleFramingError();
    }

    /** Feeding a chunk is feeding its bytes; from an idle parser it is the greedy reading. */
    method FeedChunk(data: array<bv8>, len: nat)
      requires Valid() && len <= data.Length && data != payload
      modifies this, payload
      ensures Valid() && book.earlier == old(book.earlier)
      ensures View() == Run(old(View()), old(data[..len]))
      ensures old(state) == WaitSof1 ==> Extends(View(), old(View()), Greedy(old(data[..len])))
    {
      ghost var start := View();
      for i := 0 to len
        invariant Valid() && book.earlier == old(book.earlier)
        invariant data[..] == old(data[..])
        invariant View() == Run(start, data[..i])
      {
        RunAppend(start, data[..i], data[i]);
        assert data[..i + 1] == data[..i] + [data[i]];
        Feed(data[i]);
      }
      if start.phase == Hunting {
        RunIsGreedy(start, data[..len]);
      }
    }

    /** End of input: anything but idle hunting is one partial packet. */
    method Finish()
      requires Valid()
      modifies this
      ensures Valid() && book == old(book)
      ensures View() == UartMachine.Finish(old(View()))
    {
      if state != WaitSof1 {
        stats := stats.(partialPackets := stats.partialPackets + 1);
      }
      Reset();
    }

    /** Back to hunting; the statistics stay. */
    method Reset()
      requires Valid()
      modifies this`state, this`length, this`ptype, this`payloadIndex, this`runningCrc, this`crcLo, this`inFlight
      ensures Valid() && View() == old(View()).(phase := Hunting)
      ensures state == WaitSof1 && length == 0 && ptype == 0 && payloadIndex == 0
      ensures runningCrc == 0 && crcLo == 0 && !inFlight
    {
      state := WaitSof1;
      length := 0;
      ptype := 0;
      payloadIndex := 0;
      runningCrc := 0;
      crcLo := 0;
      inFlight := false;
    }

    method ResetStats()
      requires Valid()
      modifies this`stats, this`book
      ensures Valid() && book.earlier == delivered
      ensures View() == Machine(old(View()).phase, [], 0, 0, 0)
    {
      stats, book := NO_STATS, Book([], [], 0, delivered);
    }
  }

  /** Two calls, any split: the parser ends where one call over all the bytes would end. */
  method FeedTwoChunks(p: UartParser, a: array<bv8>, b: array<bv8>)
    requires p.Valid() && a != p.payload && b != p.payload
    modifies p, p.payload
    ensures p.Valid() && p.View() == Run(old(p.View()), old(a[..] + b[..]))
  {
    RunConcat(p.View(), a[..], b[..]);
    assert a[..a.Length] == a[..] && b[..b.Length] == b[..];
    p.FeedChunk(a, a.Length);
    p.FeedChunk(b, b.Length);
  }
}
