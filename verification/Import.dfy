/** The import loop of a migration: a bounded line reader over a stream that
    arrives in chunks, the checks every line passes, and batches of events. */
module Import {
  import opened Text
  import opened Events
  import opened Chunks
  import opened Bytes

  const NEWLINE: byte := 10
  const MAX_FUTURE_SECS: nat := 7 * 24 * 60 * 60
  const MAX_BATCH_BYTES: nat := 16 * 1024 * 1024

  // ----- lines of a stream -----

  /** Length of the first line, its newline included. */
  function LineEnd(s: seq<byte>): (n: nat)
    ensures n <= |s| && (s != [] ==> n > 0)
    ensures forall i :: 0 <= i < n - 1 ==> s[i] != NEWLINE
    ensures n > 0 && s[n - 1] != NEWLINE ==> n == |s|
  {
    if s == [] then 0 else if s[0] == NEWLINE then 1 else 1 + LineEnd(s[1..])
  }

  function Lines(s: seq<byte>): seq<seq<byte>>
    decreases |s|
  {
    if s == [] then [] else [s[..LineEnd(s)]] + Lines(s[LineEnd(s)..])
  }

  /** A line holds a newline at its end or nowhere. */
  ghost predicate IsLine(line: seq<byte>) {
    line != [] && forall i :: 0 <= i < |line| - 1 ==> line[i] != NEWLINE
  }

  ghost predicate Ended(line: seq<byte>) {
    line != [] && line[|line| - 1] == NEWLINE
  }

  lemma {:induction false} FlattenLines(s: seq<byte>)
    ensures Flatten(Lines(s)) == s
    decreases |s|
  {
    if s != [] {
      var n := LineEnd(s);
      FlattenLines(s[n..]);
      assert ([s[..n]] + Lines(s[n..]))[1..] == Lines(s[n..]);
      assert s == s[..n] + s[n..];
    }
  }

  lemma {:induction false} LineShapes(s: seq<byte>)
    ensures forall k :: 0 <= k < |Lines(s)| ==> IsLine(Lines(s)[k])
    ensures forall k :: 0 <= k < |Lines(s)| - 1 ==> Ended(Lines(s)[k])
    decreases |s|
  {
    if s != [] {
      var n := LineEnd(s);
      var rest := Lines(s[n..]);
      LineShapes(s[n..]);
      assert IsLine(s[..n]);
      if rest != [] {
        assert n < |s|;
        assert Ended(s[..n]);
      }
      forall k | 0 < k < |Lines(s)| ensures Lines(s)[k] == rest[k - 1] {
      }
    }
  }

  /** The lines of a stream are all of it, and each ends at its only newline. */
  lemma {:induction false} LinesPartition(s: seq<byte>)
    ensures Flatten(Lines(s)) == s
    ensures forall k :: 0 <= k < |Lines(s)| ==> IsLine(Lines(s)[k])
    ensures forall k :: 0 <= k < |Lines(s)| - 1 ==> Ended(Lines(s)[k])
  {
    FlattenLines(s);
    LineShapes(s);
  }

  // ----- a stream in chunks -----

  /** A buffered reader: whatever the source delivered and has not been consumed.
      No chunk is empty, since an empty read means the end. */
  class ChunkReader {
    var chunks: seq<seq<byte>>

    ghost predicate Valid()
      reads this
    {
      forall i :: 0 <= i < |chunks| ==> chunks[i] != []
    }

    ghost function Contents(): seq<byte>
      reads this
    {
      Flatten(chunks)
    }

    constructor (chunks: seq<seq<byte>>)
      requires forall i :: 0 <= i < |chunks| ==> chunks[i] != []
      ensures Valid() && Contents() == Flatten(chunks)
    {
      this.chunks := chunks;
    }

    method FillBuf() returns (available: seq<byte>)
      requires Valid()
      ensures available == if chunks == [] then [] else chunks[0]
      ensures available <= Contents() && (available == [] <==> Contents() == [])
    {
      if chunks == [] {
        return [];
      }
      return chunks[0];
    }

    method Consume(n: nat)
      requires Valid() && (n > 0 ==> chunks != [] && n <= |chunks[0]|)
      modifies this
      ensures Valid() && n <= |old(Contents())| && Contents() == old(Contents())[n..]
    {
      if n > 0 {
        var rest := chunks[0][n..];
        assert chunks == [chunks[0]] + chunks[1..];
        if rest == [] {
          chunks := chunks[1..];
        } else {
          chunks := [rest] + chunks[1..];
          assert chunks[1..] == old(chunks)[1..];
        }
      }
    }
  }

  // ----- the bounded line reader -----

  function Min(a: nat, b: nat): nat { if a < b then a else b }

  function Position(s: seq<byte>): (r: Option<nat>)
    ensures r.Some? ==> r.value < |s| && s[r.value] == NEWLINE && forall i :: 0 <= i < r.value ==> s[i] != NEWLINE
    ensures r.None? ==> forall i :: 0 <= i < |s| ==> s[i] != NEWLINE
  {
    if s == [] then None
    else if s[0] == NEWLINE then Some(0)
    else
      var rest := Position(s[1..]);
      if rest.Some? then Some(rest.value + 1) else None
  }

  lemma {:induction false} LineEndIs(s: seq<byte>, n: nat)
    requires 0 < n <= |s| && (forall i :: 0 <= i < n - 1 ==> s[i] != NEWLINE) && (s[n - 1] == NEWLINE || n == |s|)
    ensures LineEnd(s) == n
    decreases n
  {
    if n > 1 {
      LineEndIs(s[1..], n - 1);
    }
  }

  /** Adds a piece of the line while there is room. */
  method Keep(
    kept: seq<byte>, cut: bool, piece: seq<byte>, max: nat, ghost s: seq<byte>, ghost total: nat)
    returns (out: seq<byte>, truncated: bool)
    requires total + |piece| <= |s| && piece == s[total..total + |piece|]
    requires kept == s[..Min(total, max)] && (cut <==> total > max)
    ensures out == s[..Min(total + |piece|, max)] && (truncated <==> total + |piece| > max)
  {
    out, truncated := kept, cut;
    if !truncated {
      var room := max - |out|;
      assert out == s[..total];
      if |piece| <= room {
        assert out + piece == s[..total + |piece|];
        out := out + piece;
      } else {
        assert out + piece[..room] == s[..max];
        out := out + piece[..room];
        truncated := true;
      }
    }
  }

  /** Reads one line, keeping at most `max` bytes of it: however the stream was
      chunked, exactly its first line is taken off, its first `max` bytes are
      kept, and it counts as truncated exactly when it is longer. */
  method ReadLineCapped(reader: ChunkReader, max: nat) returns (out: seq<byte>, total: nat, truncated: bool)
    requires reader.Valid()
    modifies reader
    ensures reader.Valid()
    ensures total == LineEnd(old(reader.Contents())) && reader.Contents() == old(reader.Contents())[total..]
    ensures out == old(reader.Contents())[..Min(total, max)]
    ensures truncated <==> total > max
  {
    ghost var s := reader.Contents();
    out, total, truncated := [], 0, false;
    while true
      invariant reader.Valid() && total <= |s| && reader.Contents() == s[total..]
      invariant forall i :: 0 <= i < total ==> s[i] != NEWLINE
      invariant out == s[..Min(total, max)] && (truncated <==> total > max)
      decreases |s| - total
    {
      var piece, ended := TakePiece(reader);
      if piece == [] {
        if total > 0 {
          LineEndIs(s, total);
        }
        return;
      }
      assert piece == s[total..total + |piece|];
      out, truncated := Keep(out, truncated, piece, max, s, total);
      forall i | total <= i < total + |piece| ensures s[i] == piece[i - total] {
      }
      total := total + |piece|;
      if ended {
        LineEndIs(s, total);
        return;
      }
    }
  }

  /** Consumes what is buffered, up to and including its first newline. */
  method TakePiece(reader: ChunkReader) returns (piece: seq<byte>, ended: bool)
    requires reader.Valid()
    modifies reader
    ensures reader.Valid() && piece <= old(reader.Contents()) && reader.Contents() == old(reader.Contents())[|piece|..]
    ensures piece == [] <==> old(reader.Contents()) == []
    ensures ended <==> Ended(piece)
    ensures piece != [] ==> IsLine(piece)
  {
    var available := reader.FillBuf();
    var position := Position(available);
    ended := position.Some?;
    piece := available[..if ended then position.value + 1 else |available|];
    if piece != [] {
      reader.Consume(|piece|);
    }
  }

  // ----- the checks on a line -----

  /** Code the loop calls into: decoding, signature checks, NIP-62 targeting. */
  datatype Checks = Checks(
    utf8: seq<byte> -> Option<string>,
    trim: string -> string,
    byteLength: string -> nat,
    parse: string -> Option<Event>,
    verifies: Event -> bool,
    delegationVerifies: Event -> bool,
    vanishesHere: Event -> bool)

  datatype Options = Options(
    verify: bool,
    applyVanish: bool,
    nip62Enabled: bool,
    nip40Enabled: bool,
    batch: nat,
    maxLineBytes: nat,
    futureSecs: nat,
    now: nat)

  datatype Verdict =
    | Blank
    | Malformed
    | Oversized
    | BadSignature
    | BadDelegation
    | FutureDated
    | Accepted(event: Event, bytes: nat)

  function StripBom(line: seq<byte>): seq<byte> {
    if |line| >= 3 && line[0] == 0xEF && line[1] == 0xBB && line[2] == 0xBF then line[3..] else line
  }

  function JudgeEvent(c: Checks, o: Options, e: Event, bytes: nat): Verdict {
    if o.verify && !c.verifies(e) then BadSignature
    else if !c.delegationVerifies(e) then BadDelegation
    else if e.createdAt > o.now + Min(o.futureSecs, MAX_FUTURE_SECS) then FutureDated
    else Accepted(e, bytes)
  }

  /** What becomes of a line that was read whole. */
  function Judge(c: Checks, o: Options, line: seq<byte>, first: bool): Verdict {
    var text := c.utf8(if first then StripBom(line) else line);
    if text.None? then Malformed
    else
      var trimmed := c.trim(text.value);
      if trimmed == "" then Blank
      else if c.byteLength(trimmed) > o.maxLineBytes then Oversized
      else
        var e := c.parse(trimmed);
        if e.None? then Malformed else JudgeEvent(c, o, e.value, c.byteLength(trimmed))
  }

  predicate TooLong(o: Options, line: seq<byte>) { |line| > o.maxLineBytes + 2 }

  /** Verdicts of the lines in order. The byte-order mark is looked for on the
      first line that is not cut off. */
  function Verdicts(c: Checks, o: Options, lines: seq<seq<byte>>): seq<Verdict> {
    if lines == [] then []
    else
      var before, line := lines[..|lines| - 1], lines[|lines| - 1];
      Verdicts(c, o, before) + [if TooLong(o, line) then Oversized else Judge(c, o, line, AllTooLong(o, before))]
  }

  predicate AllTooLong(o: Options, lines: seq<seq<byte>>) {
    forall i :: 0 <= i < |lines| ==> TooLong(o, lines[i])
  }

  function AcceptedEvents(verdicts: seq<Verdict>): seq<Event> {
    if verdicts == [] then []
    else
      var before, last := AcceptedEvents(verdicts[..|verdicts| - 1]), verdicts[|verdicts| - 1];
      if last.Accepted? then before + [last.event] else before
  }

  /** The events an import of this stream hands to the database, in order. */
  function ImportedEvents(c: Checks, o: Options, stream: seq<byte>): seq<Event> {
    AcceptedEvents(Verdicts(c, o, Lines(stream)))
  }

  function NonBlank(verdicts: seq<Verdict>): nat {
    if verdicts == [] then 0
    else NonBlank(verdicts[..|verdicts| - 1]) + if verdicts[|verdicts| - 1].Blank? then 0 else 1
  }

  predicate HonouredVanish(c: Checks, o: Options, e: Event) {
    e.kind == VANISH_KIND && o.applyVanish && o.nip62Enabled && c.vanishesHere(e)
  }

  // ----- counters -----

  datatype PutOutcome = Stored | Duplicate | Replaced | ExpiredEvent | PreviouslyDeleted | Ephemeral | Invalid | Failed

  datatype Stats = Stats(
    lines: nat,
    malformed: nat,
    oversized: nat,
    badSignature: nat,
    badDelegation: nat,
    valid: nat,
    stored: nat,
    replaced: nat,
    duplicate: nat,
    expired: nat,
    ephemeral: nat,
    previouslyDeleted: nat,
    invalid: nat)

  const NO_STATS := Stats(0, 0, 0, 0, 0, 0, 0, 0, 0, 0, 0, 0, 0)

  function Imported(s: Stats): nat { s.stored + s.replaced + s.duplicate }

  function Skipped(s: Stats): nat {
    s.malformed + s.oversized + s.badSignature + s.badDelegation + s.expired + s.ephemeral + s.previouslyDeleted
      + s.invalid
  }

  function Record(s: Stats, outcome: PutOutcome): Stats {
    match outcome
    case Stored => s.(stored := s.stored + 1)
    case Replaced => s.(replaced := s.replaced + 1)
    case Duplicate => s.(duplicate := s.duplicate + 1)
    case ExpiredEvent => s.(expired := s.expired + 1)
    case Ephemeral => s.(ephemeral := s.ephemeral + 1)
    case PreviouslyDeleted => s.(previouslyDeleted := s.previouslyDeleted + 1)
    case Invalid => s.(invalid := s.invalid + 1)
    case Failed => s.(invalid := s.invalid + 1)
  }

  /** What became of an event: the database's answer, or, in a dry run, that it
      would have been handed on. */
  datatype Fate = Valid | Answered(outcome: PutOutcome)

  /** The counter a fate is booked under. */
  function Tally(s: Stats, fate: Fate): nat {
    match fate
    case Valid => s.valid
    case Answered(Stored) => s.stored
    case Answered(Replaced) => s.replaced
    case Answered(Duplicate) => s.duplicate
    case Answered(ExpiredEvent) => s.expired
    case Answered(Ephemeral) => s.ephemeral
    case Answered(PreviouslyDeleted) => s.previouslyDeleted
    case Answered(Invalid) => s.invalid
    case Answered(Failed) => 0
  }

  function RecordFate(s: Stats, fate: Fate): Stats {
    match fate
    case Valid => s.(valid := s.valid + 1)
    case Answered(outcome) => Record(s, outcome)
  }

  function RecordAll(s: Stats, fates: seq<Fate>): Stats {
    if fates == [] then s else RecordFate(RecordAll(s, fates[..|fates| - 1]), fates[|fates| - 1])
  }

  lemma RecordSnoc(s: Stats, fates: seq<Fate>, fate: Fate)
    ensures RecordAll(s, fates + [fate]) == RecordFate(RecordAll(s, fates), fate)
  {
    assert (fates + [fate])[..|fates|] == fates;
  }

  ghost predicate NoneFailed(fates: seq<Fate>) {
    forall i :: 0 <= i < |fates| ==> fates[i] != Answered(Failed)
  }

  /** The lines refused before they became events. */
  predicate SameRefusals(a: Stats, b: Stats) {
    && a.lines == b.lines && a.malformed == b.malformed && a.oversized == b.oversized
    && a.badSignature == b.badSignature && a.badDelegation == b.badDelegation
  }

  ghost predicate CountsRefusals(s: Stats, verdicts: seq<Verdict>) {
    forall v: Verdict {:trigger RefusalCount(s, v)} :: OwnCounter(v) ==> RefusalCount(s, v) == multiset(verdicts)[v]
  }

  /** Lines whose event has been accounted for. */
  function Settled(s: Stats): nat { s.valid + Imported(s) + Skipped(s) }

  lemma SettleOne(s: Stats, fate: Fate)
    requires fate != Answered(Failed)
    ensures SameRefusals(RecordFate(s, fate), s) && Settled(RecordFate(s, fate)) == Settled(s) + 1
  {
  }

  /** Recording fates leaves the refusals, and settles one line each. */
  lemma {:induction false} RecordSettles(s: Stats, fates: seq<Fate>)
    requires NoneFailed(fates)
    ensures SameRefusals(RecordAll(s, fates), s) && Settled(RecordAll(s, fates)) == Settled(s) + |fates|
    decreases |fates|
  {
    if fates != [] {
      RecordSettles(s, fates[..|fates| - 1]);
      SettleOne(RecordAll(s, fates[..|fates| - 1]), fates[|fates| - 1]);
    }
  }

  lemma MultisetSnoc<T>(a: seq<T>, x: T, y: T)
    ensures multiset(a + [x])[y] == multiset(a)[y] + if x == y then 1 else 0
  {
  }

  lemma TallyOne(s: Stats, one: Fate, fate: Fate)
    requires one != Answered(Failed)
    ensures Tally(RecordFate(s, one), fate) == Tally(s, fate) + if one == fate then 1 else 0
  {
  }

  /** Recording fates moves each counter by the events of its fate. */
  lemma {:induction false} RecordTallies(s: Stats, fates: seq<Fate>, fate: Fate)
    requires NoneFailed(fates)
    ensures Tally(RecordAll(s, fates), fate) == Tally(s, fate) + multiset(fates)[fate]
    decreases |fates|
  {
    if fates != [] {
      var prefix, last := fates[..|fates| - 1], fates[|fates| - 1];
      RecordTallies(s, prefix, fate);
      TallyOne(RecordAll(s, prefix), last, fate);
      assert fates == prefix + [last];
      MultisetSnoc(prefix, last, fate);
    }
  }

  lemma {:induction false} RecordConcat(s: Stats, a: seq<Fate>, b: seq<Fate>)
    ensures RecordAll(s, a + b) == RecordAll(RecordAll(s, a), b)
    decreases |b|
  {
    if b == [] {
      assert a + b == a;
    } else {
      RecordConcat(s, a, b[..|b| - 1]);
      assert (a + b)[..|a + b| - 1] == a + b[..|b| - 1];
    }
  }

  /** Books that a line was read, and why it was refused if it was. */
  function BookLine(s: Stats, v: Verdict): Stats {
    var lines := s.lines + 1;
    match v
    case Blank => s
    case Accepted(_, _) => s.(lines := lines)
    case Malformed => s.(lines := lines, malformed := s.malformed + 1)
    case Oversized => s.(lines := lines, oversized := s.oversized + 1)
    case BadSignature => s.(lines := lines, badSignature := s.badSignature + 1)
    case BadDelegation => s.(lines := lines, badDelegation := s.badDelegation + 1)
    case FutureDated => s.(lines := lines, invalid := s.invalid + 1)
  }

  function LineStats(verdicts: seq<Verdict>): Stats {
    if verdicts == [] then NO_STATS else BookLine(LineStats(verdicts[..|verdicts| - 1]), verdicts[|verdicts| - 1])
  }

  lemma BookImportedCommute(s: Stats, fate: Fate, v: Verdict)
    requires fate in {Valid, Answered(Stored), Answered(Replaced), Answered(Duplicate)}
    ensures BookLine(RecordFate(s, fate), v) == RecordFate(BookLine(s, v), fate)
  {
  }

  lemma BookRecordCommute(s: Stats, fate: Fate, v: Verdict)
    ensures BookLine(RecordFate(s, fate), v) == RecordFate(BookLine(s, v), fate)
  {
    if fate in {Valid, Answered(Stored), Answered(Replaced), Answered(Duplicate)} {
      BookImportedCommute(s, fate, v);
    }
  }

  /** The order of reading lines and writing batches does not show in the counts. */
  lemma {:induction false} LinesBeforeFates(s: Stats, fates: seq<Fate>, v: Verdict)
    ensures BookLine(RecordAll(s, fates), v) == RecordAll(BookLine(s, v), fates)
    decreases |fates|
  {
    if fates != [] {
      LinesBeforeFates(s, fates[..|fates| - 1], v);
      BookRecordCommute(RecordAll(s, fates[..|fates| - 1]), fates[|fates| - 1], v);
    }
  }

  ghost function FutureCount(verdicts: seq<Verdict>, fate: Fate): nat {
    if fate == Answered(Invalid) then multiset(verdicts)[FutureDated] else 0
  }

  lemma BookOne(s: Stats, v: Verdict)
    ensures BookLine(s, v).lines == s.lines + if v.Blank? then 0 else 1
    ensures Settled(BookLine(s, v)) == Settled(s) + if v.Blank? || v.Accepted? then 0 else 1
  {
  }

  lemma {:induction false} LineTotals(verdicts: seq<Verdict>)
    ensures LineStats(verdicts).lines == NonBlank(verdicts)
    ensures Settled(LineStats(verdicts)) + |AcceptedEvents(verdicts)| == NonBlank(verdicts)
    decreases |verdicts|
  {
    if verdicts != [] {
      var prefix := verdicts[..|verdicts| - 1];
      LineTotals(prefix);
      BookOne(LineStats(prefix), verdicts[|verdicts| - 1]);
    }
  }

  /** The counter a refused line is booked under. */
  function RefusalCount(s: Stats, v: Verdict): nat {
    match v
    case Malformed => s.malformed
    case Oversized => s.oversized
    case BadSignature => s.badSignature
    case BadDelegation => s.badDelegation
    case _ => 0
  }

  predicate OwnCounter(v: Verdict) { v.Malformed? || v.Oversized? || v.BadSignature? || v.BadDelegation? }

  lemma {:induction false} LineRefusals(verdicts: seq<Verdict>, v: Verdict)
    requires OwnCounter(v)
    ensures RefusalCount(LineStats(verdicts), v) == multiset(verdicts)[v]
    decreases |verdicts|
  {
    if verdicts != [] {
      var prefix, last := verdicts[..|verdicts| - 1], verdicts[|verdicts| - 1];
      LineRefusals(prefix, v);
      assert verdicts == prefix + [last];
      MultisetSnoc(prefix, last, v);
    }
  }

  lemma {:induction false} LineTallies(verdicts: seq<Verdict>, fate: Fate)
    ensures Tally(LineStats(verdicts), fate) == FutureCount(verdicts, fate)
    decreases |verdicts|
  {
    if verdicts != [] {
      var prefix, last := verdicts[..|verdicts| - 1], verdicts[|verdicts| - 1];
      LineTallies(prefix, fate);
      assert verdicts == prefix + [last];
      MultisetSnoc(prefix, last, FutureDated);
    }
  }

  /** The database's answer to a batch, given the batches before it. `None` is a
      lost writer. */
  type Database = (seq<seq<Event>>, seq<Event>) -> Option<seq<PutOutcome>>

  /** A batch holds at most the configured number of events and ends at the
      first honoured vanish. */
  ghost predicate BatchOk(c: Checks, o: Options, batch: seq<Event>) {
    && batch != []
    && |batch| <= BatchLimit(o)
    && NoVanish(c, o, batch[..|batch| - 1])
  }

  ghost predicate NoVanish(c: Checks, o: Options, events: seq<Event>) {
    forall i :: 0 <= i < |events| ==> !HonouredVanish(c, o, events[i])
  }

  ghost predicate BatchesOk(c: Checks, o: Options, batches: seq<seq<Event>>) {
    forall i :: 0 <= i < |batches| ==> BatchOk(c, o, batches[i])
  }

  /** What a run is given. */
  datatype Job = Job(checks: Checks, options: Options, db: Option<Database>)

  /** What a run carries from line to line: the counters, the batch being filled
      and its size, and the batches written so far. */
  datatype Work = Work(stats: Stats, batch: seq<Event>, batchBytes: nat, flushed: seq<seq<Event>>)

  const NO_WORK := Work(NO_STATS, [], 0, [])

  function BatchLimit(o: Options): nat { if o.batch == 0 then 1 else o.batch }

  /** The fate of an event in a dry run. */
  function DryFate(o: Options, e: Event): Fate {
    if IsEphemeralKind(e.kind) then Answered(Ephemeral)
    else if o.nip40Enabled && Expired(e, o.now) then Answered(ExpiredEvent)
    else Valid
  }

  function DryFates(o: Options, events: seq<Event>): seq<Fate> {
    seq(|events|, i requires 0 <= i < |events| => DryFate(o, events[i]))
  }

  function Answers(outcomes: seq<PutOutcome>): seq<Fate> {
    seq(|outcomes|, i requires 0 <= i < |outcomes| => Answered(outcomes[i]))
  }

  /** The fates of a batch that follows other batches. */
  function BatchFates(job: Job, before: seq<seq<Event>>, batch: seq<Event>): seq<Fate> {
    if job.db.None? then DryFates(job.options, batch)
    else
      var answer := job.db.value(before, batch);
      if answer.Some? then Answers(answer.value) else []
  }

  function Fates(job: Job, flushed: seq<seq<Event>>): seq<Fate> {
    if flushed == [] then []
    else
      var before, batch := flushed[..|flushed| - 1], flushed[|flushed| - 1];
      Fates(job, before) + BatchFates(job, before, batch)
  }

  lemma FatesSnoc(job: Job, before: seq<seq<Event>>, batch: seq<Event>)
    ensures Fates(job, before + [batch]) == Fates(job, before) + BatchFates(job, before, batch)
  {
    assert (before + [batch])[..|before|] == before;
  }

  /** Whether the database takes a batch: it answers every event, without a write
      fault. A dry run takes everything. */
  predicate Takes(job: Job, before: seq<seq<Event>>, batch: seq<Event>) {
    job.db.None? ||
    (var answer := job.db.value(before, batch); answer.Some? && |answer.value| == |batch| && Failed !in answer.value)
  }

  ghost predicate TakesAll(job: Job, batches: seq<seq<Event>>) {
    forall i :: 0 <= i < |batches| ==> Takes(job, batches[..i], batches[i])
  }

  lemma TakesSnoc(job: Job, batches: seq<seq<Event>>, batch: seq<Event>)
    ensures TakesAll(job, batches + [batch]) <==> TakesAll(job, batches) && Takes(job, batches, batch)
  {
    var all := batches + [batch];
    assert forall i :: 0 <= i < |batches| ==> all[..i] == batches[..i] && all[i] == batches[i];
    assert all[..|batches|] == batches && all[|batches|] == batch;
  }

  lemma TakesFewer(job: Job, batches: seq<seq<Event>>, all: seq<seq<Event>>)
    requires batches <= all && TakesAll(job, all)
    ensures TakesAll(job, batches)
  {
    assert forall i :: 0 <= i < |batches| ==> all[..i] == batches[..i] && all[i] == batches[i];
  }

  /** How the accepted events are batched, whatever the database says. */
  datatype Filling = Filling(flushed: seq<seq<Event>>, batch: seq<Event>, bytes: nat)

  predicate Full(job: Job, e: Event, count: nat, bytes: nat) {
    HonouredVanish(job.checks, job.options, e) || count >= BatchLimit(job.options) || bytes >= MAX_BATCH_BYTES
  }

  function FillOne(job: Job, f: Filling, v: Verdict): Filling {
    if !v.Accepted? then f
    else
      var batch, bytes := f.batch + [v.event], f.bytes + v.bytes;
      if Full(job, v.event, |batch|, bytes) then Filling(f.flushed + [batch], [], 0)
      else Filling(f.flushed, batch, bytes)
  }

  function Fill(job: Job, verdicts: seq<Verdict>): Filling {
    if verdicts == [] then Filling([], [], 0)
    else FillOne(job, Fill(job, verdicts[..|verdicts| - 1]), verdicts[|verdicts| - 1])
  }

  function Batches(job: Job, verdicts: seq<Verdict>): seq<seq<Event>> {
    var f := Fill(job, verdicts);
    if f.batch == [] then f.flushed else f.flushed + [f.batch]
  }

  lemma FillSnoc(job: Job, verdicts: seq<Verdict>, v: Verdict)
    ensures Fill(job, verdicts + [v]) == FillOne(job, Fill(job, verdicts), v)
  {
    assert (verdicts + [v])[..|verdicts|] == verdicts;
  }

  lemma {:induction false} FillGrows(job: Job, verdicts: seq<Verdict>, n: nat)
    requires n <= |verdicts|
    ensures Fill(job, verdicts[..n]).flushed <= Fill(job, verdicts).flushed <= Batches(job, verdicts)
    decreases |verdicts|
  {
    if n < |verdicts| {
      var prefix := verdicts[..|verdicts| - 1];
      FillGrows(job, prefix, n);
      assert prefix[..n] == verdicts[..n];
    } else {
      assert verdicts[..n] == verdicts;
    }
  }

  /** A batch was written: every event of it has a fate, and is booked under it. */
  ghost predicate Flushed(job: Job, w: Work, r: Work) {
    var fates := BatchFates(job, w.flushed, w.batch);
    && r.batch == [] && r.batchBytes == 0 && r.flushed == w.flushed + [w.batch] && Takes(job, w.flushed, w.batch)
    && |fates| == |w.batch| && NoneFailed(fates) && r.stats == RecordAll(w.stats, fates)
  }

  /** Writes the batch, or only classifies it when there is no database. */
  method Flush(job: Job, w: Work) returns (r: Work, ok: bool)
    ensures w.batch == [] ==> ok && r == w
    ensures ok && w.batch != [] ==> Flushed(job, w, r)
    ensures w.batch != [] ==> (ok <==> Takes(job, w.flushed, w.batch))
  {
    r, ok := w, true;
    if w.batch == [] {
      return;
    }
    var events := w.batch;
    r := r.(batch := [], batchBytes := 0);
    var stats := r.stats;
    if job.db.None? {
      stats := Classify(job.options, stats, events);
    } else {
      var outcomes := job.db.value(w.flushed, events);
      if outcomes.None? || |outcomes.value| != |events| {
        return r, false;
      }
      stats, ok := Count(stats, outcomes.value);
      if !ok {
        return r.(stats := stats), false;
      }
    }
    r := r.(stats := stats, flushed := r.flushed + [events]);
  }

  /** Dry run: the kinds that are never stored, then everything else. */
  method Classify(o: Options, start: Stats, events: seq<Event>) returns (s: Stats)
    ensures s == RecordAll(start, DryFates(o, events))
  {
    s := start;
    for i := 0 to |events|
      invariant s == RecordAll(start, DryFates(o, events[..i]))
    {
      assert DryFates(o, events[..i + 1]) == DryFates(o, events[..i]) + [DryFate(o, events[i])];
      RecordSnoc(start, DryFates(o, events[..i]), DryFate(o, events[i]));
      if IsEphemeralKind(events[i].kind) {
        s := s.(ephemeral := s.ephemeral + 1);
      } else if o.nip40Enabled && Expired(events[i], o.now) {
        s := s.(expired := s.expired + 1);
      } else {
        s := s.(valid := s.valid + 1);
      }
    }
    assert events[..|events|] == events;
  }

  /** A write fault aborts before it is counted. */
  method Count(start: Stats, outcomes: seq<PutOutcome>) returns (s: Stats, ok: bool)
    ensures ok <==> Failed !in outcomes
    ensures ok ==> s == RecordAll(start, Answers(outcomes))
  {
    s := start;
    for i := 0 to |outcomes|
      invariant s == RecordAll(start, Answers(outcomes[..i]))
      invariant Failed !in outcomes[..i]
    {
      if outcomes[i].Failed? {
        return s, false;
      }
      assert Answers(outcomes[..i + 1]) == Answers(outcomes[..i]) + [Answered(outcomes[i])];
      RecordSnoc(start, Answers(outcomes[..i]), Answered(outcomes[i]));
      s := Record(s, outcomes[i]);
    }
    assert outcomes[..|outcomes|] == outcomes;
    return s, true;
  }

  /** The batches written so far are well-formed, each event of them has a fate,
      and the counts are those of the lines read and of these fates. */
  ghost predicate Written(job: Job, w: Work, verdicts: seq<Verdict>) {
    var fates := Fates(job, w.flushed);
    && BatchesOk(job.checks, job.options, w.flushed) && TakesAll(job, w.flushed)
    && |fates| == |Flatten(w.flushed)| && NoneFailed(fates)
    && w.stats == RecordAll(LineStats(verdicts), fates)
    && Flatten(w.flushed) + w.batch == AcceptedEvents(verdicts)
  }

  ghost predicate Consistent(job: Job, w: Work, verdicts: seq<Verdict>) {
    && |w.batch| < BatchLimit(job.options) && NoVanish(job.checks, job.options, w.batch) && Written(job, w, verdicts)
    && Fill(job, verdicts) == Filling(w.flushed, w.batch, w.batchBytes)
  }

  lemma FlushedIsWritten(job: Job, w: Work, r: Work, verdicts: seq<Verdict>)
    requires Written(job, w, verdicts) && BatchOk(job.checks, job.options, w.batch) && Flushed(job, w, r)
    ensures Written(job, r, verdicts)
  {
    FlattenSnoc(w.flushed, w.batch);
    FatesSnoc(job, w.flushed, w.batch);
    TakesSnoc(job, w.flushed, w.batch);
    RecordConcat(LineStats(verdicts), Fates(job, w.flushed), BatchFates(job, w.flushed, w.batch));
  }

  lemma LineBooked(job: Job, w: Work, v: Verdict, verdicts: seq<Verdict>)
    requires w.stats == RecordAll(LineStats(verdicts), Fates(job, w.flushed))
    ensures BookLine(w.stats, v) == RecordAll(LineStats(verdicts + [v]), Fates(job, w.flushed))
  {
    LinesBeforeFates(LineStats(verdicts), Fates(job, w.flushed), v);
    assert (verdicts + [v])[..|verdicts|] == verdicts;
  }

  lemma RefusalBooked(job: Job, w: Work, v: Verdict, verdicts: seq<Verdict>)
    requires Consistent(job, w, verdicts) && !v.Accepted?
    ensures Consistent(job, w.(stats := BookLine(w.stats, v)), verdicts + [v])
  {
    LineBooked(job, w, v, verdicts);
    FillSnoc(job, verdicts, v);
    assert (verdicts + [v])[..|verdicts|] == verdicts;
  }

  lemma AcceptedBooked(job: Job, w: Work, e: Event, bytes: nat, r: Work, verdicts: seq<Verdict>)
    requires Consistent(job, w, verdicts)
    requires r.batch == w.batch + [e] && r.flushed == w.flushed && r.stats == BookLine(w.stats, Accepted(e, bytes))
    ensures Written(job, r, verdicts + [Accepted(e, bytes)]) && BatchOk(job.checks, job.options, r.batch)
    ensures !HonouredVanish(job.checks, job.options, e) ==> NoVanish(job.checks, job.options, r.batch)
  {
    var all := verdicts + [Accepted(e, bytes)];
    LineBooked(job, w, Accepted(e, bytes), verdicts);
    assert all[..|verdicts|] == verdicts;
    NoVanishSnoc(job.checks, job.options, w.batch, e);
    assert Flatten(w.flushed) + (w.batch + [e]) == (Flatten(w.flushed) + w.batch) + [e];
  }

  /** What the counters say at the end: every non-blank line is counted once,
      refused lines under their reason, and events under their fate. */
  ghost predicate Accounted(job: Job, w: Work, verdicts: seq<Verdict>) {
    && w.stats.lines == NonBlank(verdicts) == w.stats.valid + Imported(w.stats) + Skipped(w.stats)
    && CountsRefusals(w.stats, verdicts)
    && forall fate: Fate :: Tally(w.stats, fate) == multiset(Fates(job, w.flushed))[fate] + FutureCount(verdicts, fate)
  }

  lemma WrittenIsAccounted(job: Job, w: Work, verdicts: seq<Verdict>)
    requires Written(job, w, verdicts) && w.batch == []
    ensures Accounted(job, w, verdicts) && Flatten(w.flushed) == AcceptedEvents(verdicts)
  {
    var fates := Fates(job, w.flushed);
    assert Flatten(w.flushed) + [] == Flatten(w.flushed);
    LineTotals(verdicts);
    RecordSettles(LineStats(verdicts), fates);
    forall v: Verdict | OwnCounter(v) ensures RefusalCount(w.stats, v) == multiset(verdicts)[v] {
      LineRefusals(verdicts, v);
    }
    forall fate: Fate ensures Tally(w.stats, fate) == multiset(fates)[fate] + FutureCount(verdicts, fate) {
      LineTallies(verdicts, fate);
      RecordTallies(LineStats(verdicts), fates, fate);
    }
  }

  lemma NoVanishSnoc(c: Checks, o: Options, events: seq<Event>, e: Event)
    requires NoVanish(c, o, events) && |events| < BatchLimit(o)
    ensures BatchOk(c, o, events + [e])
    ensures !HonouredVanish(c, o, e) ==> NoVanish(c, o, events + [e])
  {
    assert (events + [e])[..|events|] == events;
  }

  /** The work with one event more in the batch. */
  function Added(w: Work, e: Event, bytes: nat): Work {
    w.(stats := w.stats.(lines := w.stats.lines + 1), batchBytes := w.batchBytes + bytes, batch := w.batch + [e])
  }

  lemma AddedIsConsistent(job: Job, w: Work, e: Event, bytes: nat, verdicts: seq<Verdict>)
    requires Consistent(job, w, verdicts) && !Full(job, e, |w.batch| + 1, w.batchBytes + bytes)
    ensures Consistent(job, Added(w, e, bytes), verdicts + [Accepted(e, bytes)])
  {
    FillSnoc(job, verdicts, Accepted(e, bytes));
    AcceptedBooked(job, w, e, bytes, Added(w, e, bytes), verdicts);
  }

  lemma FlushedIsConsistent(job: Job, w: Work, e: Event, bytes: nat, r: Work, verdicts: seq<Verdict>)
    requires Consistent(job, w, verdicts) && Full(job, e, |w.batch| + 1, w.batchBytes + bytes)
    requires Flushed(job, Added(w, e, bytes), r)
    ensures Consistent(job, r, verdicts + [Accepted(e, bytes)])
  {
    FillSnoc(job, verdicts, Accepted(e, bytes));
    AcceptedBooked(job, w, e, bytes, Added(w, e, bytes), verdicts);
    FlushedIsWritten(job, Added(w, e, bytes), r, verdicts + [Accepted(e, bytes)]);
  }

  /** Takes an accepted event in, flushing when the batch is full, too large or
      ends in an honoured vanish. */
  method Take(job: Job, w: Work, e: Event, bytes: nat, ghost verdicts: seq<Verdict>) returns (r: Work, ok: bool)
    requires Consistent(job, w, verdicts)
    ensures ok ==> Consistent(job, r, verdicts + [Accepted(e, bytes)])
    ensures !ok ==> !TakesAll(job, Fill(job, verdicts + [Accepted(e, bytes)]).flushed)
  {
    var o := job.options;
    r := w.(stats := w.stats.(lines := w.stats.lines + 1), batchBytes := w.batchBytes + bytes, batch := w.batch + [e]);
    ok := true;
    if HonouredVanish(job.checks, o, e) || |r.batch| >= BatchLimit(o) || r.batchBytes >= MAX_BATCH_BYTES {
      r, ok := Flush(job, r);
      if ok {
        FlushedIsConsistent(job, w, e, bytes, r, verdicts);
      } else {
        FillSnoc(job, verdicts, Accepted(e, bytes));
        TakesSnoc(job, w.flushed, w.batch + [e]);
      }
    } else {
      AddedIsConsistent(job, w, e, bytes, verdicts);
    }
  }

  /** Books one verdict. */
  method Book(job: Job, w: Work, v: Verdict, ghost verdicts: seq<Verdict>) returns (r: Work, ok: bool)
    requires Consistent(job, w, verdicts)
    ensures ok ==> Consistent(job, r, verdicts + [v])
    ensures !ok ==> !TakesAll(job, Fill(job, verdicts + [v]).flushed)
  {
    if v.Accepted? {
      r, ok := Take(job, w, v.event, v.bytes, verdicts);
    } else {
      RefusalBooked(job, w, v, verdicts);
      r, ok := w.(stats := BookLine(w.stats, v)), true;
    }
  }

  /** The last, possibly partial, batch. */
  method Finish(job: Job, w: Work, ghost verdicts: seq<Verdict>) returns (r: Work, ok: bool)
    requires Consistent(job, w, verdicts)
    ensures ok ==> Flatten(r.flushed) == AcceptedEvents(verdicts) && BatchesOk(job.checks, job.options, r.flushed)
    ensures ok ==> Accounted(job, r, verdicts)
    ensures ok <==> TakesAll(job, Batches(job, verdicts))
    ensures ok ==> r.flushed == Batches(job, verdicts)
  {
    r, ok := Flush(job, w);
    TakesSnoc(job, w.flushed, w.batch);
    if ok {
      if w.batch != [] {
        NoVanishPrefix(job.checks, job.options, w.batch);
        FlushedIsWritten(job, w, r, verdicts);
      }
      WrittenIsAccounted(job, r, verdicts);
    }
  }

  lemma NoVanishPrefix(c: Checks, o: Options, events: seq<Event>)
    requires NoVanish(c, o, events) && events != [] && |events| <= BatchLimit(o)
    ensures BatchOk(c, o, events)
  {
  }

  /** Reads and judges the next line, or reports the end of the stream. */
  method NextVerdict(
    c: Checks, o: Options, reader: ChunkReader, first: bool, ghost stream: seq<byte>, ghost done: seq<seq<byte>>)
    returns (more: bool, v: Verdict, stillFirst: bool, ghost now: seq<seq<byte>>)
    requires reader.Valid() && (first <==> AllTooLong(o, done)) && Progress(stream, done, reader.Contents())
    modifies reader
    ensures reader.Valid() && Progress(stream, now, reader.Contents())
    ensures stillFirst <==> AllTooLong(o, now)
    ensures !more ==> now == done && reader.Contents() == []
    ensures more ==> |reader.Contents()| < |old(reader.Contents())|
    ensures more ==> Verdicts(c, o, now) == Verdicts(c, o, done) + [v]
  {
    ghost var rest := reader.Contents();
    var line, total, truncated := ReadLineCapped(reader, o.maxLineBytes + 2);
    stillFirst, v := first, Oversized;
    more := total > 0;
    now := done;
    if more {
      ghost var whole := rest[..total];
      now := done + [whole];
      LinesStep(rest, done);
      VerdictsSnoc(c, o, done, whole);
      if !truncated {
        assert line == whole;
        v := Judge(c, o, line, first);
        stillFirst := false;
      }
    }
  }

  // ----- what becomes of a line, from its bytes -----

  predicate Long(o: Options, line: seq<byte>) { |line| > o.maxLineBytes + 2 }

  /** A line without the byte-order mark, which the first line read whole may have. */
  ghost predicate IsBody(o: Options, lines: seq<seq<byte>>, k: nat, body: seq<byte>)
    requires k < |lines|
  {
    if [0xEF, 0xBB, 0xBF] <= lines[k] && forall j :: 0 <= j < k ==> Long(o, lines[j])
    then lines[k] == [0xEF, 0xBB, 0xBF] + body
    else lines[k] == body
  }

  /** A line read whole that decodes to a text, without the space around it. */
  ghost predicate ReadsAs(c: Checks, o: Options, lines: seq<seq<byte>>, k: nat, text: string)
    requires k < |lines|
  {
    && !Long(o, lines[k])
    && exists body :: IsBody(o, lines, k, body) && c.utf8(body).Some? && c.trim(c.utf8(body).value) == text
  }

  /** A line that holds an event. */
  ghost predicate HoldsEvent(c: Checks, o: Options, lines: seq<seq<byte>>, k: nat, e: Event)
    requires k < |lines|
  {
    exists text ::
      ReadsAs(c, o, lines, k, text) && text != "" && c.byteLength(text) <= o.maxLineBytes && c.parse(text) == Some(e)
  }

  ghost predicate Signed(c: Checks, o: Options, e: Event) { o.verify ==> c.verifies(e) }

  /** Further ahead of the clock than configured, or than a week. */
  ghost predicate Ahead(o: Options, e: Event) {
    e.createdAt > o.now + o.futureSecs || e.createdAt > o.now + 604_800
  }

  /** A line that holds an event with a good signature, a good delegation and a
      date that is not ahead of the clock. */
  ghost predicate Passes(c: Checks, o: Options, lines: seq<seq<byte>>, k: nat, e: Event)
    requires k < |lines|
  {
    && HoldsEvent(c, o, lines, k, e) && Signed(c, o, e) && c.delegationVerifies(e)
    && !Ahead(o, e)
  }

  /** Why a line does not pass: each reason is the first one that applies. */
  ghost predicate IsBlank(c: Checks, o: Options, lines: seq<seq<byte>>, k: nat)
    requires k < |lines|
  {
    ReadsAs(c, o, lines, k, "")
  }

  ghost predicate IsOversized(c: Checks, o: Options, lines: seq<seq<byte>>, k: nat)
    requires k < |lines|
  {
    || Long(o, lines[k])
    || exists text :: ReadsAs(c, o, lines, k, text) && text != "" && c.byteLength(text) > o.maxLineBytes
  }

  ghost predicate IsMalformed(c: Checks, o: Options, lines: seq<seq<byte>>, k: nat)
    requires k < |lines|
  {
    && !Long(o, lines[k])
    && (|| (forall text :: !ReadsAs(c, o, lines, k, text))
        || exists text :: && ReadsAs(c, o, lines, k, text) && text != "" && c.byteLength(text) <= o.maxLineBytes
                          && c.parse(text).None?)
  }

  ghost predicate IsForged(c: Checks, o: Options, lines: seq<seq<byte>>, k: nat)
    requires k < |lines|
  {
    exists e :: HoldsEvent(c, o, lines, k, e) && !Signed(c, o, e)
  }

  ghost predicate IsUndelegated(c: Checks, o: Options, lines: seq<seq<byte>>, k: nat)
    requires k < |lines|
  {
    exists e :: HoldsEvent(c, o, lines, k, e) && Signed(c, o, e) && !c.delegationVerifies(e)
  }

  ghost predicate IsAhead(c: Checks, o: Options, lines: seq<seq<byte>>, k: nat)
    requires k < |lines|
  {
    exists e :: && HoldsEvent(c, o, lines, k, e) && Signed(c, o, e) && c.delegationVerifies(e)
                && Ahead(o, e)
  }

  lemma BodyExactly(o: Options, lines: seq<seq<byte>>, k: nat, body: seq<byte>)
    requires k < |lines|
    ensures IsBody(o, lines, k, body) <==>
      body == if AllTooLong(o, lines[..k]) then StripBom(lines[k]) else lines[k]
  {
    var line, mark: seq<byte> := lines[k], [0xEF, 0xBB, 0xBF];
    assert AllTooLong(o, lines[..k]) <==> forall j :: 0 <= j < k ==> Long(o, lines[j]) by {
      assert forall j :: 0 <= j < k ==> lines[..k][j] == lines[j];
    }
    assert mark <= line <==> |line| >= 3 && line[0] == 0xEF && line[1] == 0xBB && line[2] == 0xBF;
    if mark <= line {
      assert line == mark + line[3..];
      assert (mark + body)[3..] == body;
    }
  }

  lemma ReadsExactly(c: Checks, o: Options, lines: seq<seq<byte>>, k: nat, text: string)
    requires k < |lines|
    ensures
      var decoded := c.utf8(if AllTooLong(o, lines[..k]) then StripBom(lines[k]) else lines[k]);
      ReadsAs(c, o, lines, k, text) <==>
        !TooLong(o, lines[k]) && decoded.Some? && c.trim(decoded.value) == text
  {
    var body := if AllTooLong(o, lines[..k]) then StripBom(lines[k]) else lines[k];
    BodyExactly(o, lines, k, body);
    if x :| IsBody(o, lines, k, x) {
      BodyExactly(o, lines, k, x);
    }
  }

  lemma VerdictAt(c: Checks, o: Options, lines: seq<seq<byte>>, k: nat)
    requires k < |lines|
    ensures |Verdicts(c, o, lines)| == |lines|
    ensures Verdicts(c, o, lines)[k] ==
      if TooLong(o, lines[k]) then Oversized else Judge(c, o, lines[k], AllTooLong(o, lines[..k]))
  {
    VerdictsPrefix(c, o, lines, k + 1);
    VerdictsPrefix(c, o, lines[..k + 1], k);
    assert lines[..k + 1][..k] == lines[..k] && lines[..k + 1] == lines[..k] + [lines[k]];
    VerdictsSnoc(c, o, lines[..k], lines[k]);
    assert Verdicts(c, o, lines)[k] == Verdicts(c, o, lines)[..k + 1][k];
  }

  lemma EventExactly(c: Checks, o: Options, lines: seq<seq<byte>>, k: nat, e: Event)
    requires k < |lines|
    ensures HoldsEvent(c, o, lines, k, e) <==>
      && !TooLong(o, lines[k])
      && var decoded := c.utf8(if AllTooLong(o, lines[..k]) then StripBom(lines[k]) else lines[k]);
         && decoded.Some?
         && var text := c.trim(decoded.value);
            text != "" && c.byteLength(text) <= o.maxLineBytes && c.parse(text) == Some(e)
  {
    forall text ensures ReadsAs(c, o, lines, k, text) <==>
      && !TooLong(o, lines[k])
      && var decoded := c.utf8(if AllTooLong(o, lines[..k]) then StripBom(lines[k]) else lines[k]);
         decoded.Some? && c.trim(decoded.value) == text
    {
      ReadsExactly(c, o, lines, k, text);
    }
  }

  /** A line becomes an event if and only if it passes. */
  lemma AcceptedExactly(c: Checks, o: Options, lines: seq<seq<byte>>, k: nat, e: Event)
    requires k < |lines|
    ensures |Verdicts(c, o, lines)| == |lines|
    ensures
      var v := Verdicts(c, o, lines)[k];
      (v.Accepted? && v.event == e <==> Passes(c, o, lines, k, e))
  {
    VerdictAt(c, o, lines, k);
    EventExactly(c, o, lines, k, e);
  }

  /** And it is refused for exactly the reason that applies. */
  lemma RefusedExactly(c: Checks, o: Options, lines: seq<seq<byte>>, k: nat)
    requires k < |lines|
    ensures |Verdicts(c, o, lines)| == |lines|
    ensures
      var v := Verdicts(c, o, lines)[k];
      && (v == Blank <==> IsBlank(c, o, lines, k)) && (v == Oversized <==> IsOversized(c, o, lines, k))
      && (v == Malformed <==> IsMalformed(c, o, lines, k))
  {
    VerdictAt(c, o, lines, k);
    var decoded := c.utf8(if AllTooLong(o, lines[..k]) then StripBom(lines[k]) else lines[k]);
    forall text ensures ReadsAs(c, o, lines, k, text) <==>
      !TooLong(o, lines[k]) && decoded.Some? && c.trim(decoded.value) == text
    {
      ReadsExactly(c, o, lines, k, text);
    }
    if decoded.Some? && !TooLong(o, lines[k]) {
      assert ReadsAs(c, o, lines, k, c.trim(decoded.value));
    }
  }

  lemma UntrustedExactly(c: Checks, o: Options, lines: seq<seq<byte>>, k: nat)
    requires k < |lines|
    ensures |Verdicts(c, o, lines)| == |lines|
    ensures
      var v := Verdicts(c, o, lines)[k];
      && (v == BadSignature <==> IsForged(c, o, lines, k)) && (v == BadDelegation <==> IsUndelegated(c, o, lines, k))
      && (v == FutureDated <==> IsAhead(c, o, lines, k))
  {
    VerdictAt(c, o, lines, k);
    forall e ensures HoldsEvent(c, o, lines, k, e) <==>
      && !TooLong(o, lines[k])
      && var decoded := c.utf8(if AllTooLong(o, lines[..k]) then StripBom(lines[k]) else lines[k]);
         && decoded.Some?
         && var text := c.trim(decoded.value);
            text != "" && c.byteLength(text) <= o.maxLineBytes && c.parse(text) == Some(e)
    {
      EventExactly(c, o, lines, k, e);
    }
  }

  // ----- what a run imports and counts, line by line -----

  /** These events are those of the lines that pass, one each, in order. */
  ghost predicate OfLines(c: Checks, o: Options, lines: seq<seq<byte>>, at: seq<nat>, events: seq<Event>) {
    && |at| == |events|
    && (forall i :: 0 <= i < |at| ==> at[i] < |lines| && Passes(c, o, lines, at[i], events[i]))
    && (forall i, j :: 0 <= i < j < |at| ==> at[i] < at[j])
    && forall k: nat, e :: k < |lines| && Passes(c, o, lines, k, e) ==> k in at
  }

  ghost predicate AcceptedAt(verdicts: seq<Verdict>, at: seq<nat>, events: seq<Event>) {
    && |at| == |events|
    && (forall i :: 0 <= i < |at| ==> at[i] < |verdicts| && verdicts[at[i]].Accepted?
                                      && verdicts[at[i]].event == events[i])
    && (forall i, j :: 0 <= i < j < |at| ==> at[i] < at[j])
    && forall k: nat :: k < |verdicts| && verdicts[k].Accepted? ==> k in at
  }

  lemma AcceptedSnoc(verdicts: seq<Verdict>, at: seq<nat>, events: seq<Event>, v: Verdict)
    requires AcceptedAt(verdicts, at, events)
    ensures !v.Accepted? ==> AcceptedAt(verdicts + [v], at, events)
    ensures v.Accepted? ==> AcceptedAt(verdicts + [v], at + [|verdicts|], events + [v.event])
  {
    var all := verdicts + [v];
    assert forall k :: 0 <= k < |verdicts| ==> all[k] == verdicts[k];
    if v.Accepted? {
      assert (at + [|verdicts|])[|at|] == |verdicts|;
      forall k: nat | k < |all| && all[k].Accepted? ensures k in at + [|verdicts|] {
      }
    }
  }

  lemma {:induction false} WhereAccepted(verdicts: seq<Verdict>) returns (at: seq<nat>)
    ensures AcceptedAt(verdicts, at, AcceptedEvents(verdicts))
    decreases |verdicts|
  {
    at := [];
    if verdicts != [] {
      var n := |verdicts| - 1;
      at := WhereAccepted(verdicts[..n]);
      AcceptedSnoc(verdicts[..n], at, AcceptedEvents(verdicts[..n]), verdicts[n]);
      assert verdicts[..n] + [verdicts[n]] == verdicts;
      if verdicts[n].Accepted? {
        at := at + [n];
      }
    }
  }

  lemma ImportedLines(c: Checks, o: Options, lines: seq<seq<byte>>) returns (at: seq<nat>)
    ensures OfLines(c, o, lines, at, AcceptedEvents(Verdicts(c, o, lines)))
  {
    var verdicts := Verdicts(c, o, lines);
    at := WhereAccepted(verdicts);
    VerdictsPrefix(c, o, lines, 0);
    forall k: nat, e | k < |lines| && Passes(c, o, lines, k, e) ensures k in at {
      AcceptedExactly(c, o, lines, k, e);
    }
    forall i | 0 <= i < |at| ensures at[i] < |lines| && Passes(c, o, lines, at[i], AcceptedEvents(verdicts)[i]) {
      AcceptedExactly(c, o, lines, at[i], AcceptedEvents(verdicts)[i]);
    }
  }

  ghost function With(verdicts: seq<Verdict>, v: Verdict): set<nat> {
    set k: nat | k < |verdicts| && verdicts[k] == v
  }

  ghost function Without(verdicts: seq<Verdict>, v: Verdict): set<nat> {
    set k: nat | k < |verdicts| && verdicts[k] != v
  }

  lemma WithSnoc(verdicts: seq<Verdict>, last: Verdict, v: Verdict)
    ensures With(verdicts + [last], v) == With(verdicts, v) + if last == v then {|verdicts|} else {}
    ensures Without(verdicts + [last], v) == Without(verdicts, v) + if last != v then {|verdicts|} else {}
  {
    var all := verdicts + [last];
    assert all[|verdicts|] == last && forall k :: 0 <= k < |verdicts| ==> all[k] == verdicts[k];
  }

  lemma {:induction false} TimesIn(verdicts: seq<Verdict>, v: Verdict)
    ensures multiset(verdicts)[v] == |With(verdicts, v)|
    decreases |verdicts|
  {
    if verdicts != [] {
      var before, last := verdicts[..|verdicts| - 1], verdicts[|verdicts| - 1];
      assert verdicts == before + [last];
      TimesIn(before, v);
      MultisetSnoc(before, last, v);
      WithSnoc(before, last, v);
    }
  }

  lemma {:induction false} TimesNonBlank(verdicts: seq<Verdict>)
    ensures NonBlank(verdicts) == |Without(verdicts, Blank)|
    decreases |verdicts|
  {
    if verdicts != [] {
      var before, last := verdicts[..|verdicts| - 1], verdicts[|verdicts| - 1];
      assert verdicts == before + [last];
      TimesNonBlank(before);
      WithSnoc(before, last, Blank);
    }
  }

  /** The counters are the numbers of lines with each fate. */
  ghost predicate CountsLines(job: Job, lines: seq<seq<byte>>, w: Work) {
    var c, o := job.checks, job.options;
    && w.stats.lines == |set k: nat | k < |lines| && !IsBlank(c, o, lines, k)|
    && w.stats.malformed == |set k: nat | k < |lines| && IsMalformed(c, o, lines, k)|
    && w.stats.oversized == |set k: nat | k < |lines| && IsOversized(c, o, lines, k)|
    && w.stats.badSignature == |set k: nat | k < |lines| && IsForged(c, o, lines, k)|
    && w.stats.badDelegation == |set k: nat | k < |lines| && IsUndelegated(c, o, lines, k)|
    && w.stats.invalid == |set k: nat | k < |lines| && IsAhead(c, o, lines, k)|
         + multiset(Fates(job, w.flushed))[Answered(Invalid)]
  }

  lemma CountedVerdicts(job: Job, verdicts: seq<Verdict>, w: Work)
    requires Accounted(job, w, verdicts)
    ensures w.stats.lines == |Without(verdicts, Blank)| && w.stats.malformed == |With(verdicts, Malformed)|
    ensures w.stats.oversized == |With(verdicts, Oversized)| && w.stats.badSignature == |With(verdicts, BadSignature)|
    ensures w.stats.badDelegation == |With(verdicts, BadDelegation)|
    ensures w.stats.invalid == |With(verdicts, FutureDated)| + multiset(Fates(job, w.flushed))[Answered(Invalid)]
  {
    TimesNonBlank(verdicts);
    forall v | v in {Malformed, Oversized, BadSignature, BadDelegation, FutureDated}
      ensures multiset(verdicts)[v] == |With(verdicts, v)|
    {
      TimesIn(verdicts, v);
    }
    assert RefusalCount(w.stats, Malformed) == w.stats.malformed;
    assert RefusalCount(w.stats, Oversized) == w.stats.oversized;
    assert RefusalCount(w.stats, BadSignature) == w.stats.badSignature;
    assert RefusalCount(w.stats, BadDelegation) == w.stats.badDelegation;
    assert Tally(w.stats, Answered(Invalid)) == w.stats.invalid;
  }

  lemma AccountedByLine(job: Job, lines: seq<seq<byte>>, w: Work)
    requires Accounted(job, w, Verdicts(job.checks, job.options, lines))
    ensures CountsLines(job, lines, w)
  {
    CountedVerdicts(job, Verdicts(job.checks, job.options, lines), w);
    SameLines(job.checks, job.options, lines);
  }

  lemma SameLines(c: Checks, o: Options, lines: seq<seq<byte>>)
    ensures
      var vs := Verdicts(c, o, lines);
      && Without(vs, Blank) == (set k: nat | k < |lines| && !IsBlank(c, o, lines, k))
      && With(vs, Malformed) == (set k: nat | k < |lines| && IsMalformed(c, o, lines, k))
      && With(vs, Oversized) == (set k: nat | k < |lines| && IsOversized(c, o, lines, k))
      && With(vs, BadSignature) == (set k: nat | k < |lines| && IsForged(c, o, lines, k))
      && With(vs, BadDelegation) == (set k: nat | k < |lines| && IsUndelegated(c, o, lines, k))
      && With(vs, FutureDated) == (set k: nat | k < |lines| && IsAhead(c, o, lines, k))
  {
    VerdictsPrefix(c, o, lines, 0);
    forall k: nat | k < |lines|
      ensures
        var v := Verdicts(c, o, lines)[k];
        && (v == Blank <==> IsBlank(c, o, lines, k)) && (v == Oversized <==> IsOversized(c, o, lines, k))
        && (v == Malformed <==> IsMalformed(c, o, lines, k)) && (v == BadSignature <==> IsForged(c, o, lines, k))
        && (v == BadDelegation <==> IsUndelegated(c, o, lines, k)) && (v == FutureDated <==> IsAhead(c, o, lines, k))
    {
      RefusedExactly(c, o, lines, k);
      UntrustedExactly(c, o, lines, k);
    }
  }

  /** A batch has an event, no more than the configured number unless it has one
      only, and an honoured vanish at its end at most. */
  ghost predicate InBatches(job: Job, batches: seq<seq<Event>>) {
    forall i :: 0 <= i < |batches| ==>
      && 1 <= |batches[i]| && (|batches[i]| <= job.options.batch || |batches[i]| == 1)
      && forall j :: 0 <= j < |batches[i]| - 1 ==> !Vanishes(job, batches[i][j])
  }

  /** A request to vanish from this relay, when those are honoured. */
  predicate Vanishes(job: Job, e: Event) {
    e.kind == 62 && job.options.nip62Enabled && job.options.applyVanish && job.checks.vanishesHere(e)
  }

  lemma BatchesExactly(job: Job, batches: seq<seq<Event>>)
    requires BatchesOk(job.checks, job.options, batches)
    ensures InBatches(job, batches)
  {
    forall i | 0 <= i < |batches| ensures BatchOk(job.checks, job.options, batches[i]) {
    }
  }

  /** A batch is written as soon as it is full: by an honoured vanish, by the
      configured number of events, or by 16 MiB of lines. */
  lemma WrittenWhenFull(job: Job, f: Filling, e: Event, bytes: nat)
    ensures
      var batch, size := f.batch + [e], f.bytes + bytes;
      var full := Vanishes(job, e) || |batch| >= job.options.batch || size >= 16_777_216;
      FillOne(job, f, Accepted(e, bytes)) ==
        if full then Filling(f.flushed + [batch], [], 0) else Filling(f.flushed, batch, size)
  {
  }

  /** The import: every line is read once, whatever the chunking, and a run that
      succeeds has accounted for every non-blank line and has written exactly
      the accepted events, in order, in well-formed batches. */
  method Run(job: Job, reader: ChunkReader) returns (w: Work, ok: bool)
    requires reader.Valid()
    modifies reader
    ensures ok ==> Flatten(w.flushed) == ImportedEvents(job.checks, job.options, old(reader.Contents()))
    ensures ok ==> exists at ::
      OfLines(job.checks, job.options, Lines(old(reader.Contents())), at, Flatten(w.flushed))
    ensures ok ==> InBatches(job, w.flushed) && CountsLines(job, Lines(old(reader.Contents())), w)
    ensures ok ==> Accounted(job, w, Verdicts(job.checks, job.options, Lines(old(reader.Contents()))))
    ensures ok <==> TakesAll(job, Batches(job, Verdicts(job.checks, job.options, Lines(old(reader.Contents())))))
  {
    ghost var stream := reader.Contents();
    ghost var done: seq<seq<byte>> := [];
    ghost var verdicts: seq<Verdict> := [];
    w := NO_WORK;
    var first, more := true, true;
    while more
      invariant reader.Valid() && Progress(stream, done, reader.Contents())
      invariant !more ==> reader.Contents() == []
      invariant first <==> AllTooLong(job.options, done)
      invariant verdicts == Verdicts(job.checks, job.options, done) && Consistent(job, w, verdicts)
      decreases |reader.Contents()|, more
    {
      var v;
      more, v, first, done := NextVerdict(job.checks, job.options, reader, first, stream, done);
      if more {
        w, ok := Book(job, w, v, verdicts);
        if !ok {
          FaultIsFinal(job, done, Lines(reader.Contents()), verdicts + [v]);
          return;
        }
        verdicts := verdicts + [v];
      }
    }
    assert Lines(stream) == done by {
      assert Lines(stream) == done + Lines([]);
    }
    w, ok := Finish(job, w, verdicts);
    if ok {
      AccountedByLine(job, done, w);
      BatchesExactly(job, w.flushed);
      ghost var at := ImportedLines(job.checks, job.options, done);
    }
  }

  lemma {:induction false} VerdictsPrefix(c: Checks, o: Options, lines: seq<seq<byte>>, n: nat)
    requires n <= |lines|
    ensures |Verdicts(c, o, lines)| == |lines| && Verdicts(c, o, lines)[..n] == Verdicts(c, o, lines[..n])
    decreases |lines|
  {
    if n < |lines| {
      var prefix := lines[..|lines| - 1];
      VerdictsPrefix(c, o, prefix, n);
      assert prefix[..n] == lines[..n];
      assert Verdicts(c, o, lines)[..n] == Verdicts(c, o, prefix)[..n];
    } else {
      assert lines[..n] == lines;
      if lines != [] {
        VerdictsPrefix(c, o, lines[..|lines| - 1], |lines| - 1);
      }
    }
  }

  /** A batch the database does not take fails the import, whatever follows. */
  lemma FaultIsFinal(job: Job, done: seq<seq<byte>>, rest: seq<seq<byte>>, verdicts: seq<Verdict>)
    requires verdicts == Verdicts(job.checks, job.options, done) && !TakesAll(job, Fill(job, verdicts).flushed)
    ensures !TakesAll(job, Batches(job, Verdicts(job.checks, job.options, done + rest)))
  {
    var all := Verdicts(job.checks, job.options, done + rest);
    VerdictsPrefix(job.checks, job.options, done + rest, |done|);
    assert (done + rest)[..|done|] == done;
    FillGrows(job, all, |done|);
    if TakesAll(job, Batches(job, all)) {
      TakesFewer(job, Fill(job, verdicts).flushed, Batches(job, all));
    }
  }

  // ----- the byte-order mark -----

  const BOM: seq<byte> := [0xEF, 0xBB, 0xBF]

  /** The mark is stripped from the first line that is not over-long, which need
      not be the first line; a mark on any other line stays. */
  lemma MarkOnALaterLine(c: Checks, o: Options, long: seq<byte>, line: seq<byte>)
    requires TooLong(o, long) && !TooLong(o, BOM + line)
    ensures Verdicts(c, o, [long, BOM + line]) == [Oversized, Judge(c, o, line, false)]
    ensures Verdicts(c, o, [line, BOM + line]) == [Judge(c, o, line, true), Judge(c, o, BOM + line, false)]
  {
    assert [long, BOM + line][..1] == [long] && [line, BOM + line][..1] == [line];
    assert [long][..0] == [];
    assert Verdicts(c, o, [long]) == [Oversized];
    assert AllTooLong(o, [long]);
    assert StripBom(BOM + line) == line;
    assert [line][..0] == [] && AllTooLong(o, []);
    assert Verdicts(c, o, [line]) == [Judge(c, o, line, true)];
    assert !AllTooLong(o, [line]) by {
      assert [line][0] == line;
    }
  }

  /** `done` are the lines read, `left` is what is still to be read. */
  ghost predicate Progress(stream: seq<byte>, done: seq<seq<byte>>, left: seq<byte>) {
    Lines(stream) == done + Lines(left)
  }

  lemma LinesStep(s: seq<byte>, done: seq<seq<byte>>)
    ensures s == [] ==> done + Lines(s) == done
    ensures s != [] ==> done + Lines(s) == (done + [s[..LineEnd(s)]]) + Lines(s[LineEnd(s)..])
  {
  }

  lemma VerdictsSnoc(c: Checks, o: Options, lines: seq<seq<byte>>, line: seq<byte>)
    ensures Verdicts(c, o, lines + [line]) ==
      Verdicts(c, o, lines) + [if TooLong(o, line) then Oversized else Judge(c, o, line, AllTooLong(o, lines))]
    ensures AllTooLong(o, lines + [line]) <==> AllTooLong(o, lines) && TooLong(o, line)
  {
    var all := lines + [line];
    assert all[..|all| - 1] == lines;
    assert all[|lines|] == line;
    assert forall i :: 0 <= i < |lines| ==> all[i] == lines[i];
  }
}
