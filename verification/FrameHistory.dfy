/** What diagnostics.cpp is to know about a message ID, as functions of the history of frames
    and timeout checks. */
module FrameHistory {
  import opened Bits
  import opened Options
  import opened SignalCodec

  datatype MessageDef = MessageDef(
    id: nat, name: string, periodMs: int, byteOrder: ByteOrder, signals: seq<SignalDef>)

  /** The first signal of that name. */
  function FindSignal(signals: seq<SignalDef>, name: string): Option<SignalDef> {
    if signals == [] then None
    else if signals[0].name == name then Some(signals[0])
    else FindSignal(signals[1..], name)
  }

  datatype RawFrame = RawFrame(timestampMs: int, canId: nat, data: Payload)

  /** What a frame of a known message says: its counter, if the message has one, and whether
      its checksum, if it has one, is wrong. */
  datatype Reception = Reception(id: nat, name: string, timestampMs: int, counter: Option<int>, bad: bool)

  /** One call of the engine. */
  datatype Event = Known(r: Reception) | Unknown(frame: RawFrame) | Check(now: int)

  // ---- The database: messages in ascending order of ID, as std::map iterates ----

  predicate Ascending(db: seq<MessageDef>) {
    forall i, j :: 0 <= i < j < |db| ==> db[i].id < db[j].id
  }

  type Database = db: seq<MessageDef> | Ascending(db) witness []

  function Find(db: seq<MessageDef>, id: nat): (m: Option<MessageDef>)
    ensures m.Some? ==> m.value in db && m.value.id == id
    ensures m.None? ==> forall i :: 0 <= i < |db| ==> db[i].id != id
  {
    if db == [] then None else if db[0].id == id then Some(db[0]) else Find(db[1..], id)
  }

  lemma FindAt(db: Database, i: nat)
    requires i < |db|
    ensures Find(db, db[i].id) == Some(db[i])
  {}

  // ---- Reading a frame ----

  /** The source shifts by the counter's bits and indexes the payload by the checksum's byte. */
  predicate Decodable(m: MessageDef) {
    var counter, checksum := FindSignal(m.signals, "counter"), FindSignal(m.signals, "checksum");
    && (counter.Some? ==> Usable(counter.value, m.byteOrder))
    && (checksum.Some? ==> -8 < checksum.value.startBit < 64)
  }

  /** static_cast<int> of a 64-bit value: the low 32 bits, signed. */
  function AsInt32(x: nat): int {
    var w := x % 0x1_0000_0000;
    if w < 0x8000_0000 then w else w - 0x1_0000_0000
  }

  function CounterOf(m: MessageDef, frame: RawFrame): Option<int>
    requires Decodable(m)
  {
    match FindSignal(m.signals, "counter")
    case None => None
    case Some(sig) => Some(AsInt32(Raw(frame.data, sig, m.byteOrder)))
  }

  function XorAll(d: seq<Byte>): nat {
    if d == [] then 0 else Xor(XorAll(d[..|d| - 1]), d[|d| - 1])
  }

  /** A checksum signal is present and the XOR of all eight bytes is not zero. */
  predicate BadSum(m: MessageDef, frame: RawFrame) {
    FindSignal(m.signals, "checksum").Some? && XorAll(frame.data) != 0
  }

  function Received(m: MessageDef, frame: RawFrame): Reception
    requires Decodable(m)
  {
    Reception(m.id, m.name, frame.timestampMs, CounterOf(m, frame), BadSum(m, frame))
  }

  // ---- The frames of one ID ----

  function Receptions(h: seq<Event>, id: nat): seq<Reception> {
    if h == [] then []
    else
      var before := Receptions(h[..|h| - 1], id);
      match h[|h| - 1]
      case Known(r) => if r.id == id then before + [r] else before
      case _ => before
  }

  function LastTime(r: seq<Reception>): Option<int> {
    if r == [] then None else Some(r[|r| - 1].timestampMs)
  }

  function LastSeen(h: seq<Event>, id: nat): Option<int> {
    LastTime(Receptions(h, id))
  }

  // ---- Counter gaps ----

  /** The remainder of C++, truncated toward zero. */
  function Remainder(a: int, b: int): int
    requires b > 0
  {
    if a >= 0 then a % b else -(-a % b)
  }

  function Expected(previous: int): int {
    Remainder(previous + 1, 16)
  }

  /** The counters received, oldest first. */
  function Counters(r: seq<Reception>): seq<int> {
    if r == [] then []
    else
      var before := Counters(r[..|r| - 1]);
      match r[|r| - 1].counter
      case None => before
      case Some(c) => before + [c]
  }

  /** How many counters are not the expected successor of the one before. */
  function Gaps(c: seq<int>): nat {
    if |c| < 2 then 0
    else Gaps(c[..|c| - 1]) + (if c[|c| - 1] != Expected(c[|c| - 2]) then 1 else 0)
  }

  function LastOf(c: seq<int>): Option<int> {
    if c == [] then None else Some(c[|c| - 1])
  }

  /** A frame with counter c raises a gap if the last counter before it was this. */
  predicate IsGap(last: Option<int>, c: Option<int>) {
    last.Some? && c.Some? && c.value != Expected(last.value)
  }

  // ---- Checksums ----

  function BadSums(r: seq<Reception>): nat {
    if r == [] then 0 else BadSums(r[..|r| - 1]) + (if r[|r| - 1].bad then 1 else 0)
  }

  // ---- Timeouts ----

  /** More than three periods since the last frame; before the first frame always. */
  predicate Overdue(since: Option<int>, periodMs: int, now: int) {
    since.Some? ==> now - since.value > 3 * periodMs
  }

  /** The stored timeout flag: what the last frame or check of the ID has left. */
  function Flag(db: Database, h: seq<Event>, id: nat): Option<bool> {
    if h == [] then None
    else
      var before := h[..|h| - 1];
      match h[|h| - 1]
      case Known(r) => if r.id == id then Some(false) else Flag(db, before, id)
      case Unknown(_) => Flag(db, before, id)
      case Check(now) =>
        match Find(db, id)
        case None => Flag(db, before, id)
        case Some(m) => Some(Overdue(LastSeen(before, id), m.periodMs, now))
  }

  predicate IsRise(db: Database, h: seq<Event>, id: nat, now: int) {
    match Find(db, id)
    case None => false
    case Some(m) => Overdue(LastSeen(h, id), m.periodMs, now) && Flag(db, h, id) != Some(true)
  }

  /** How many checks have found the ID overdue while its flag was down. */
  function Rises(db: Database, h: seq<Event>, id: nat): nat {
    if h == [] then 0
    else
      var before := h[..|h| - 1];
      Rises(db, before, id) + (if h[|h| - 1].Check? && IsRise(db, before, id, h[|h| - 1].now) then 1 else 0)
  }

  function UnknownFrames(h: seq<Event>): nat {
    if h == [] then 0 else UnknownFrames(h[..|h| - 1]) + (if h[|h| - 1].Unknown? then 1 else 0)
  }

  // ---- Everything the engine keeps for one ID ----

  datatype MessageStats = MessageStats(
    framesReceived: nat, counterFaults: nat, checksumFaults: nat, timeoutEvents: nat)

  datatype Entry = Entry(
    lastCounter: Option<int>, lastSeen: Option<int>, timedOut: Option<bool>, stats: Option<MessageStats>)

  function Tally(r: seq<Reception>, rises: nat): MessageStats {
    MessageStats(|r|, Gaps(Counters(r)), BadSums(r), rises)
  }

  /** Statistics appear with the first frame or the first timeout. */
  function EntryFrom(r: seq<Reception>, flag: Option<bool>, rises: nat): Entry {
    Entry(
      LastOf(Counters(r)), LastTime(r), flag,
      if r == [] && rises == 0 then None else Some(Tally(r, rises)))
  }

  function EntryOf(db: Database, h: seq<Event>, id: nat): Entry {
    EntryFrom(Receptions(h, id), Flag(db, h, id), Rises(db, h, id))
  }

  /** A frame of another ID, or an unknown one, changes nothing for this ID. */
  lemma OthersDoNotMatter(db: Database, h: seq<Event>, e: Event, id: nat)
    requires e.Unknown? || (e.Known? && e.r.id != id) || (e.Check? && Find(db, id).None?)
    ensures EntryOf(db, h + [e], id) == EntryOf(db, h, id)
  {
    assert (h + [e])[..|h|] == h;
  }

  function Bumped(t: MessageStats, gap: bool, bad: bool): MessageStats {
    MessageStats(
      t.framesReceived + 1,
      t.counterFaults + (if gap then 1 else 0),
      t.checksumFaults + (if bad then 1 else 0),
      t.timeoutEvents)
  }

  /** What a frame makes of an entry. */
  function Updated(e: Entry, r: Reception): Entry {
    var t := if e.stats.Some? then e.stats.value else MessageStats(0, 0, 0, 0);
    Entry(
      if r.counter.Some? then r.counter else e.lastCounter,
      Some(r.timestampMs),
      Some(false),
      Some(Bumped(t, IsGap(e.lastCounter, r.counter), r.bad)))
  }

  lemma EntryAfterFrame(db: Database, h: seq<Event>, r: Reception)
    ensures EntryOf(db, h + [Known(r)], r.id) == Updated(EntryOf(db, h, r.id), r)
  {
    assert (h + [Known(r)])[..|h|] == h;
    EntryGrows(Receptions(h, r.id), Flag(db, h, r.id), Rises(db, h, r.id), r);
  }

  lemma EntryGrows(before: seq<Reception>, flag: Option<bool>, rises: nat, r: Reception)
    ensures EntryFrom(before + [r], Some(false), rises) == Updated(EntryFrom(before, flag, rises), r)
  {
    CountersGrow(before, r);
    BadSumsGrow(before, r);
  }

  lemma CountersGrow(before: seq<Reception>, r: Reception)
    ensures var c, c' := Counters(before), Counters(before + [r]);
      && c' == c + (if r.counter.Some? then [r.counter.value] else [])
      && LastOf(c') == (if r.counter.Some? then r.counter else LastOf(c))
      && Gaps(c') == Gaps(c) + (if IsGap(LastOf(c), r.counter) then 1 else 0)
  {
    assert (before + [r])[..|before|] == before;
    if r.counter.Some? {
      GapsGrow(Counters(before), r.counter.value);
    }
  }

  lemma GapsGrow(c: seq<int>, x: int)
    ensures Gaps(c + [x]) == Gaps(c) + (if IsGap(LastOf(c), Some(x)) then 1 else 0)
  {
    assert (c + [x])[..|c|] == c;
  }

  lemma BadSumsGrow(before: seq<Reception>, r: Reception)
    ensures BadSums(before + [r]) == BadSums(before) + (if r.bad then 1 else 0)
  {
    assert (before + [r])[..|before|] == before;
  }

  /** What a check makes of the entry of a message. */
  function Checked(e: Entry, overdue: bool): Entry {
    var t := if e.stats.Some? then e.stats.value else MessageStats(0, 0, 0, 0);
    e.(timedOut := Some(overdue),
       stats := if overdue && e.timedOut != Some(true) then Some(t.(timeoutEvents := t.timeoutEvents + 1)) else e.stats)
  }

  lemma EntryAfterCheck(db: Database, h: seq<Event>, m: MessageDef, now: int)
    requires Find(db, m.id) == Some(m)
    ensures var e := EntryOf(db, h, m.id);
      && EntryOf(db, h + [Check(now)], m.id) == Checked(e, Overdue(e.lastSeen, m.periodMs, now))
      && IsRise(db, h, m.id, now) == (Overdue(e.lastSeen, m.periodMs, now) && e.timedOut != Some(true))
  {
    assert (h + [Check(now)])[..|h|] == h;
  }

  lemma AllAfterFrame(db: Database, h: seq<Event>, r: Reception)
    ensures forall id: nat ::
      EntryOf(db, h + [Known(r)], id) == if id == r.id then Updated(EntryOf(db, h, id), r) else EntryOf(db, h, id)
    ensures UnknownFrames(h + [Known(r)]) == UnknownFrames(h)
  {
    forall id: nat
      ensures EntryOf(db, h + [Known(r)], id) == if id == r.id then Updated(EntryOf(db, h, id), r) else EntryOf(db, h, id)
    {
      if id == r.id {
        EntryAfterFrame(db, h, r);
      } else {
        OthersDoNotMatter(db, h, Known(r), id);
      }
    }
    assert (h + [Known(r)])[..|h|] == h;
  }

  lemma AllAfterUnknown(db: Database, h: seq<Event>, frame: RawFrame)
    ensures forall id: nat :: EntryOf(db, h + [Unknown(frame)], id) == EntryOf(db, h, id)
    ensures UnknownFrames(h + [Unknown(frame)]) == UnknownFrames(h) + 1
  {
    forall id: nat
      ensures EntryOf(db, h + [Unknown(frame)], id) == EntryOf(db, h, id)
    {
      OthersDoNotMatter(db, h, Unknown(frame), id);
    }
    assert (h + [Unknown(frame)])[..|h|] == h;
  }
}
