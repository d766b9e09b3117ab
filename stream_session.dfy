/**
 * The simulated stream of the `AIAgentStreamParser` viewer. A timer reveals
 * the sample text a few characters at a time, re-scans the revealed prefix
 * on every tick and appends the values found beyond those already shown,
 * numbering them from a running id counter.
 */
module StreamSession {
  import opened JsonValue
  import opened Scanner

  /**
   * One streamed event. `createdAt` and `event` are read without a fallback,
   * so they may be `undefined` (`None`); `timestamp` is the tick's clock.
   */
  datatype StreamEvent = StreamEvent(id: nat, createdAt: Option<Json>, event: Option<Json>, data: Json, timestamp: int)

  /** The event made from a decoded value that is not `null`. */
  function ToStreamEvent(obj: Json, id: nat, now: int): StreamEvent {
    StreamEvent(id, Field(obj, "created_at"), Field(obj, "event"), obj, now)
  }

  /** The position of the first `null` among `objs`, if any. */
  function FirstNull(objs: seq<Json>): (r: Option<nat>)
    ensures r.None? <==> JNull !in objs
    ensures r.Some? ==> r.value < |objs| && objs[r.value] == JNull && JNull !in objs[..r.value]
    decreases |objs|
  {
    if |objs| == 0 then None
    else if objs[0] == JNull then Some(0)
    else
      var r := FirstNull(objs[1..]);
      assert objs == [objs[0]] + objs[1..];
      if r.None? then None
      else
        assert objs[..r.value + 1] == [objs[0]] + objs[1..][..r.value];
        Some(r.value + 1)
  }

  /** The events for `objs`, numbered consecutively from `firstId`. */
  function StreamEvents(objs: seq<Json>, firstId: nat, now: int): (r: seq<StreamEvent>)
    ensures |r| == |objs|
    decreases |objs|
  {
    if |objs| == 0 then []
    else StreamEvents(objs[..|objs| - 1], firstId, now) + [ToStreamEvent(objs[|objs| - 1], firstId + |objs| - 1, now)]
  }

  function Min(a: int, b: int): int {
    if a <= b then a else b
  }

  /** `e` is the event made from the value `v`, which is not `null`. */
  predicate Shows(e: StreamEvent, v: Json) {
    v != JNull && e == ToStreamEvent(v, e.id, e.timestamp)
  }

  /**
   * `events` are one event for each of the first values in `values`, in
   * order, with ids that grow along the list and stay below `nextId`.
   */
  predicate ShowsScanPrefix(events: seq<StreamEvent>, values: seq<Json>, nextId: nat) {
    && |events| <= |values|
    && forall i :: 0 <= i < |events| ==>
         && Shows(events[i], values[i])
         && events[i].id < nextId
         && (0 < i ==> events[i - 1].id < events[i].id)
  }

  /** The ids of the events shown are strictly increasing, so no two events share an id. */
  lemma {:induction false} ShownIdsIncrease(events: seq<StreamEvent>, values: seq<Json>, nextId: nat, i: nat, j: nat)
    requires ShowsScanPrefix(events, values, nextId) && i < j < |events|
    ensures events[i].id < events[j].id
    decreases j - i
  {
    if i + 1 < j {
      ShownIdsIncrease(events, values, nextId, i, j - 1);
    }
  }

  /** A prefix of the values stays a prefix of any extension of them. */
  lemma ShowsScanPrefixExtends(events: seq<StreamEvent>, values: seq<Json>, more: seq<Json>, nextId: nat)
    requires ShowsScanPrefix(events, values, nextId) && values <= more
    ensures ShowsScanPrefix(events, more, nextId)
  {
    assert forall i :: 0 <= i < |values| ==> values[i] == more[i];
  }

  /** Raising the counter keeps the ids below it. */
  lemma ShowsScanPrefixCounter(events: seq<StreamEvent>, values: seq<Json>, nextId: nat, raised: nat)
    requires ShowsScanPrefix(events, values, nextId) && nextId <= raised
    ensures ShowsScanPrefix(events, values, raised)
  {
  }

  /** Appending the events for the values not yet shown, numbered from the counter, keeps the correspondence. */
  lemma ShowsScanPrefixAppend(events: seq<StreamEvent>, values: seq<Json>, nextId: nat, now: int)
    requires ShowsScanPrefix(events, values, nextId)
    requires JNull !in values[|events|..]
    ensures var added := StreamEvents(values[|events|..], nextId, now);
            ShowsScanPrefix(events + added, values, nextId + |added|)
  {
    var unseen := values[|events|..];
    var added := StreamEvents(unseen, nextId, now);
    var all := events + added;
    forall i | |events| <= i < |all|
      ensures Shows(all[i], values[i])
      ensures all[i].id == nextId + (i - |events|)
    {
      assert all[i] == added[i - |events|];
      assert unseen[i - |events|] == values[i];
      StreamEventsFields(unseen, nextId, now, i - |events|);
    }
    forall i | 0 <= i < |all|
      ensures Shows(all[i], values[i]) && all[i].id < nextId + |added|
      ensures 0 < i ==> all[i - 1].id < all[i].id
    {
      if i < |events| {
        assert all[i] == events[i];
        if 0 < i {
          assert all[i - 1] == events[i - 1];
        }
      } else if i > |events| {
        assert all[i - 1].id == nextId + (i - 1 - |events|);
      } else if 0 < i {
        assert all[i - 1] == events[i - 1];
      }
    }
  }

  /** The `i`th numbered event is the event for the `i`th value, with id `firstId + i`. */
  lemma {:induction false} StreamEventsFields(objs: seq<Json>, firstId: nat, now: int, i: nat)
    requires i < |objs|
    ensures StreamEvents(objs, firstId, now)[i] == ToStreamEvent(objs[i], firstId + i, now)
    decreases |objs|
  {
    if i < |objs| - 1 {
      StreamEventsFields(objs[..|objs| - 1], firstId, now, i);
    }
  }

  // ---------------------------------------------------------------------
  // The session as a value

  /** The variables of a stream session: React state, the id counter and the timer's position. */
  datatype Session = Session(
    events: seq<StreamEvent>,
    isStreaming: bool,
    currentBuffer: string,
    emitted: nat,
    nextId: nat,
    charIndex: nat)

  /** The part of the sample text the timer has revealed. */
  function Revealed(sampleData: string, charIndex: nat): string {
    sampleData[..Min(charIndex, |sampleData|)]
  }

  /**
   * The events shown are the first values the scanner finds in the revealed
   * text, one event per value and in order, and `emitted` counts them.
   */
  predicate SessionValid(st: Session, sampleData: string, decode: Decoder) {
    && st.emitted == |st.events|
    && ShowsScanPrefix(st.events, Scan(Revealed(sampleData, st.charIndex), decode).objects, st.nextId)
  }

  /**
   * The timer's next position: the random advance `step`, except that a step
   * that would overshoot stops on the last character, so that the whole text
   * is revealed before the stream ends.
   */
  function Advance(charIndex: nat, step: nat, length: nat): (r: nat)
    ensures charIndex < length && step >= 1 ==> charIndex < r
    ensures r <= charIndex + step
    ensures charIndex + step < length ==> r == charIndex + step
    ensures charIndex < length && length <= r ==> charIndex + 1 == length
  {
    if charIndex + step < length then charIndex + step
    else if charIndex + 1 < length then length - 1
    else charIndex + step
  }

  /**
   * One timer tick, with `step` in place of the random advance. Past the end
   * the stream stops and the buffer empties; otherwise the next prefix is
   * revealed and scanned.
   */
  function TickNext(st: Session, sampleData: string, decode: Decoder, step: nat, now: int): Session {
    if st.charIndex >= |sampleData| then
      st.(isStreaming := false, currentBuffer := "")
    else
      var buffer := sampleData[..st.charIndex + 1];
      ShowParsed(st, buffer, Scan(buffer, decode).objects, Advance(st.charIndex, step, |sampleData|), now)
  }

  /**
   * A tick inside the text, given the new buffer, the values the scanner
   * finds in it and the timer's next position: the values beyond the `emitted` already shown become events
   * numbered from the counter. A `null` among them makes the property read
   * throw once its id is taken: nothing is appended and the position stays.
   */
  function ShowParsed(st: Session, buffer: string, parsed: seq<Json>, next: nat, now: int): Session {
    if |parsed| <= st.emitted then
      st.(currentBuffer := buffer, charIndex := next)
    else
      var unseen := parsed[st.emitted..];
      match FirstNull(unseen)
      case Some(k) =>
        st.(currentBuffer := buffer, nextId := st.nextId + k + 1)
      case None =>
        st.(events := st.events + StreamEvents(unseen, st.nextId, now),
            currentBuffer := buffer,
            emitted := st.emitted + |unseen|,
            nextId := st.nextId + |unseen|,
            charIndex := next)
  }

  /** Every tick keeps the events a prefix of the values of the revealed text, each shown once. */
  lemma TickKeepsValid(st: Session, sampleData: string, decode: Decoder, step: nat, now: int)
    requires SessionValid(st, sampleData, decode) && step >= 1
    ensures SessionValid(TickNext(st, sampleData, decode, step, now), sampleData, decode)
  {
    if st.charIndex < |sampleData| {
      var parsed := Scan(sampleData[..st.charIndex + 1], decode).objects;
      if |parsed| <= st.emitted {
        InertTickKeepsValid(st, sampleData, decode, step, now);
      } else if FirstNull(parsed[st.emitted..]).Some? {
        ThrowingTickKeepsValid(st, sampleData, decode, step, now);
      } else {
        AppendingTickKeepsValid(st, sampleData, decode, step, now);
      }
    }
  }

  /** A tick with no new value only reveals more text. */
  lemma InertTickKeepsValid(st: Session, sampleData: string, decode: Decoder, step: nat, now: int)
    requires SessionValid(st, sampleData, decode) && step >= 1 && st.charIndex < |sampleData|
    requires |Scan(sampleData[..st.charIndex + 1], decode).objects| <= st.emitted
    ensures SessionValid(TickNext(st, sampleData, decode, step, now), sampleData, decode)
  {
    var next := Advance(st.charIndex, step, |sampleData|);
    RevealedScansGrow(sampleData, st.charIndex, next, decode);
    var parsed := Scan(sampleData[..st.charIndex + 1], decode).objects;
    ShowsScanPrefixExtends(st.events, Scan(Revealed(sampleData, st.charIndex), decode).objects, parsed, st.nextId);
    ShowsScanPrefixExtends(st.events, parsed, Scan(Revealed(sampleData, next), decode).objects, st.nextId);
  }

  /** A tick that meets a `null` only moves the counter, which keeps the ids below it. */
  lemma ThrowingTickKeepsValid(st: Session, sampleData: string, decode: Decoder, step: nat, now: int)
    requires SessionValid(st, sampleData, decode) && step >= 1 && st.charIndex < |sampleData|
    requires var parsed := Scan(sampleData[..st.charIndex + 1], decode).objects;
             |parsed| > st.emitted && FirstNull(parsed[st.emitted..]).Some?
    ensures SessionValid(TickNext(st, sampleData, decode, step, now), sampleData, decode)
  {
    var parsed := Scan(sampleData[..st.charIndex + 1], decode).objects;
    var k := FirstNull(parsed[st.emitted..]).value;
    ShowsScanPrefixCounter(st.events, Scan(Revealed(sampleData, st.charIndex), decode).objects, st.nextId, st.nextId + k + 1);
  }

  /**
   * Values that extend the ones shown, with no `null` beyond those shown,
   * appended as events numbered from the counter: the events still show a
   * prefix of any later extension of the values.
   */
  lemma AppendKeepsShown(events: seq<StreamEvent>, shown: seq<Json>, parsed: seq<Json>, later: seq<Json>, nextId: nat, now: int)
    requires ShowsScanPrefix(events, shown, nextId) && shown <= parsed && parsed <= later
    requires JNull !in parsed[|events|..]
    ensures ShowsScanPrefix(events + StreamEvents(parsed[|events|..], nextId, now), later, nextId + (|parsed| - |events|))
  {
    ShowsScanPrefixExtends(events, shown, parsed, nextId);
    ShowsScanPrefixAppend(events, parsed, nextId, now);
    ShowsScanPrefixExtends(events + StreamEvents(parsed[|events|..], nextId, now), parsed, later, nextId + (|parsed| - |events|));
  }

  /** The text revealed before a tick, at the tick and after it: each scan's values extend the previous ones. */
  lemma RevealedScansGrow(sampleData: string, charIndex: nat, next: nat, decode: Decoder)
    requires charIndex < |sampleData| && charIndex < next
    ensures Scan(Revealed(sampleData, charIndex), decode).objects <= Scan(sampleData[..charIndex + 1], decode).objects
    ensures Scan(sampleData[..charIndex + 1], decode).objects <= Scan(Revealed(sampleData, next), decode).objects
  {
    assert Revealed(sampleData, charIndex) == sampleData[..charIndex];
    assert Revealed(sampleData, next) == sampleData[..Min(next, |sampleData|)];
    ScanPrefixMonotone(sampleData[..charIndex], sampleData[..charIndex + 1], decode);
    ScanPrefixMonotone(sampleData[..charIndex + 1], sampleData[..Min(next, |sampleData|)], decode);
  }

  /** A tick that shows new values appends them behind the ones shown, numbered from the counter. */
  lemma AppendingTickKeepsValid(st: Session, sampleData: string, decode: Decoder, step: nat, now: int)
    requires SessionValid(st, sampleData, decode) && step >= 1 && st.charIndex < |sampleData|
    requires var parsed := Scan(sampleData[..st.charIndex + 1], decode).objects;
             |parsed| > st.emitted && FirstNull(parsed[st.emitted..]).None?
    ensures SessionValid(TickNext(st, sampleData, decode, step, now), sampleData, decode)
  {
    var parsed := Scan(sampleData[..st.charIndex + 1], decode).objects;
    var after := TickNext(st, sampleData, decode, step, now);
    var shown := Scan(Revealed(sampleData, st.charIndex), decode).objects;
    var later := Scan(Revealed(sampleData, after.charIndex), decode).objects;
    TickNextAppends(st, sampleData, decode, step, now);
    RevealedScansGrow(sampleData, st.charIndex, after.charIndex, decode);
    AppendedSessionShows(st, after, shown, parsed, later, now);
    ValidByParts(after, sampleData, decode, later);
  }

  /** A session that appends the values of `parsed` beyond those shown still shows a prefix of any later scan. */
  lemma AppendedSessionShows(st: Session, after: Session, shown: seq<Json>, parsed: seq<Json>, later: seq<Json>, now: int)
    requires st.emitted == |st.events| && ShowsScanPrefix(st.events, shown, st.nextId)
    requires shown <= parsed && parsed <= later
    requires |parsed| > st.emitted && FirstNull(parsed[st.emitted..]).None?
    requires after.events == st.events + StreamEvents(parsed[st.emitted..], st.nextId, now)
    requires after.emitted == st.emitted + (|parsed| - st.emitted)
    requires after.nextId == st.nextId + (|parsed| - st.emitted)
    ensures after.emitted == |after.events| && ShowsScanPrefix(after.events, later, after.nextId)
  {
    AppendKeepsShown(st.events, shown, parsed, later, st.nextId, now);
  }

  /** The state after a tick that appends, written out. */
  lemma TickNextAppends(st: Session, sampleData: string, decode: Decoder, step: nat, now: int)
    requires st.charIndex < |sampleData|
    requires var parsed := Scan(sampleData[..st.charIndex + 1], decode).objects;
             |parsed| > st.emitted && FirstNull(parsed[st.emitted..]).None?
    ensures var parsed := Scan(sampleData[..st.charIndex + 1], decode).objects;
            var after := TickNext(st, sampleData, decode, step, now);
            && after.events == st.events + StreamEvents(parsed[st.emitted..], st.nextId, now)
            && after.emitted == st.emitted + (|parsed| - st.emitted)
            && after.nextId == st.nextId + (|parsed| - st.emitted)
            && after.charIndex == Advance(st.charIndex, step, |sampleData|)
  {
  }

  /** Validity from its two parts, with the scanned values named. */
  lemma ValidByParts(st: Session, sampleData: string, decode: Decoder, values: seq<Json>)
    requires values == Scan(Revealed(sampleData, st.charIndex), decode).objects
    requires st.emitted == |st.events| && ShowsScanPrefix(st.events, values, st.nextId)
    ensures SessionValid(st, sampleData, decode)
  {
  }

  /**
   * A tick inside the text appends exactly the values beyond those already
   * shown, with consecutive ids from the counter, which grows by the number
   * appended; nothing is appended when there is no new value.
   */
  lemma TickAppendsUnseen(st: Session, sampleData: string, decode: Decoder, step: nat, now: int)
    requires SessionValid(st, sampleData, decode) && st.charIndex < |sampleData|
    ensures var after := TickNext(st, sampleData, decode, step, now);
            var parsed := Scan(sampleData[..st.charIndex + 1], decode).objects;
            && after.currentBuffer == sampleData[..st.charIndex + 1]
            && st.events <= after.events
            && (|parsed| <= st.emitted ==> after.events == st.events && after.nextId == st.nextId)
            && (|parsed| > st.emitted && JNull !in parsed[st.emitted..] ==>
                  && |after.events| == |parsed|
                  && (forall i :: |st.events| <= i < |parsed| ==>
                        after.events[i].data == parsed[i] && after.events[i].id == st.nextId + (i - |st.events|))
                  && after.nextId == st.nextId + (|parsed| - |st.events|))
  {
    var parsed := Scan(sampleData[..st.charIndex + 1], decode).objects;
    if |parsed| > st.emitted && JNull !in parsed[st.emitted..] {
      var unseen := parsed[st.emitted..];
      var added := StreamEvents(unseen, st.nextId, now);
      assert FirstNull(unseen).None?;
      assert TickNext(st, sampleData, decode, step, now).events == st.events + added;
      forall i | |st.events| <= i < |parsed|
        ensures (st.events + added)[i].data == parsed[i]
        ensures (st.events + added)[i].id == st.nextId + (i - |st.events|)
      {
        StreamEventsFields(unseen, st.nextId, now, i - |st.events|);
      }
    }
  }

  /**
   * Once no `null` is pending, a tick inside the text catches up: the events
   * shown are then exactly the values found in the buffer.
   */
  lemma TickCatchesUp(st: Session, sampleData: string, decode: Decoder, step: nat, now: int)
    requires SessionValid(st, sampleData, decode) && st.charIndex < |sampleData| && step >= 1
    requires JNull !in Scan(sampleData[..st.charIndex + 1], decode).objects
    ensures var after := TickNext(st, sampleData, decode, step, now);
            var parsed := Scan(sampleData[..st.charIndex + 1], decode).objects;
            && |after.events| == |parsed|
            && forall i :: 0 <= i < |parsed| ==> after.events[i].data == parsed[i]
  {
    var parsed := Scan(sampleData[..st.charIndex + 1], decode).objects;
    RevealedScansGrow(sampleData, st.charIndex, st.charIndex + 1, decode);
    ShowsScanPrefixExtends(st.events, Scan(Revealed(sampleData, st.charIndex), decode).objects, parsed, st.nextId);
    if |parsed| > st.emitted {
      TickAppendsUnseen(st, sampleData, decode, step, now);
      assert JNull !in parsed[st.emitted..];
    }
  }

  // ---------------------------------------------------------------------
  // The component state

  class AIAgentStreamParser {
    var events: seq<StreamEvent>
    var isStreaming: bool
    var currentBuffer: string
    /** How many scanned values are already shown. */
    var emitted: nat
    /** `eventIdRef.current`. */
    var nextId: nat
    /** The timer's position in the sample text. */
    var charIndex: nat
    const sampleData: string
    /** `JSON.parse`. */
    const decode: Decoder

    function State(): Session
      reads this
    {
      Session(events, isStreaming, currentBuffer, emitted, nextId, charIndex)
    }

    predicate Valid()
      reads this
    {
      SessionValid(State(), sampleData, decode)
    }

    constructor(sampleData: string, decode: Decoder)
      ensures this.sampleData == sampleData && this.decode == decode
      ensures State() == Session([], false, "", 0, 0, 0)
      ensures Valid()
    {
      this.sampleData := sampleData;
      this.decode := decode;
      events := [];
      isStreaming := false;
      currentBuffer := "";
      emitted := 0;
      nextId := 0;
      charIndex := 0;
    }

    /** `simulateStreaming` up to the timer: a running stream is left alone; otherwise everything restarts. */
    method StartStreaming()
      requires Valid()
      modifies this
      ensures Valid()
      ensures old(isStreaming) ==> unchanged(this)
      ensures !old(isStreaming) ==> State() == Session([], true, "", 0, 0, 0)
    {
      if isStreaming {
        return;
      }
      isStreaming := true;
      events := [];
      currentBuffer := "";
      nextId := 0;
      emitted := 0;
      charIndex := 0;
    }

    /** One timer tick while streaming; see `TickNext`. */
    method Tick(step: nat, now: int)
      requires Valid() && isStreaming && step >= 1
      modifies this
      ensures State() == TickNext(old(State()), sampleData, decode, step, now)
      ensures Valid()
    {
      TickKeepsValid(State(), sampleData, decode, step, now);
      if charIndex >= |sampleData| {
        isStreaming := false;
        currentBuffer := "";
        return;
      }
      RevealAndShow(step, now);
    }

    /** The body of a tick inside the text: reveal one more prefix, scan it and show the values not yet shown. */
    method RevealAndShow(step: nat, now: int)
      requires charIndex < |sampleData|
      modifies this
      ensures var buffer := sampleData[..old(charIndex) + 1];
              State() == ShowParsed(old(State()), buffer, Scan(buffer, decode).objects,
                                    Advance(old(charIndex), step, |sampleData|), now)
    {
      var newBuffer := sampleData[..charIndex + 1];
      currentBuffer := newBuffer;
      var parsedObjects := ParseJSONObjects(newBuffer, decode);
      if |parsedObjects| <= emitted {
        charIndex := Advance(charIndex, step, |sampleData|);
        return;
      }
      var newEvents, threw := NumberUnseen(parsedObjects[emitted..], now);
      if threw {
        return;
      }
      events := events + newEvents;
      emitted := emitted + |newEvents|;
      charIndex := Advance(charIndex, step, |sampleData|);
    }

    /**
     * `parsedObjects.slice(...).map((obj) => ({ id: eventIdRef.current++, created_at: obj.created_at, ... }))`:
     * the counter moves for every value reached, and the first `null`
     * throws once its id has been taken.
     */
    method NumberUnseen(unseen: seq<Json>, now: int) returns (newEvents: seq<StreamEvent>, threw: bool)
      modifies this`nextId
      ensures threw <==> FirstNull(unseen).Some?
      ensures threw ==> nextId == old(nextId) + FirstNull(unseen).value + 1
      ensures !threw ==> nextId == old(nextId) + |unseen| && newEvents == StreamEvents(unseen, old(nextId), now)
    {
      newEvents := [];
      var k := 0;
      while k < |unseen|
        invariant 0 <= k <= |unseen|
        invariant JNull !in unseen[..k]
        invariant nextId == old(nextId) + k
        invariant newEvents == StreamEvents(unseen[..k], old(nextId), now)
      {
        var obj := unseen[k];
        var id := nextId;
        nextId := nextId + 1;
        if obj == JNull {
          FirstNullAfterNonNull(unseen, k);
          return newEvents, true;
        }
        newEvents := newEvents + [ToStreamEvent(obj, id, now)];
        StreamEventsAppend(unseen[..k], obj, old(nextId), now);
        assert unseen[..k + 1] == unseen[..k] + [obj];
        k := k + 1;
      }
      assert unseen[..k] == unseen;
      return newEvents, false;
    }

    /** `stopStreaming`: the stream stops and the buffer empties; the events stay. */
    method StopStreaming()
      requires Valid()
      modifies this
      ensures Valid()
      ensures State() == old(State()).(isStreaming := false, currentBuffer := "")
    {
      isStreaming := false;
      currentBuffer := "";
    }

    /** `resetParser`: stop, then forget the events and restart the counter. */
    method ResetParser()
      requires Valid()
      modifies this
      ensures Valid()
      ensures State() == Session([], false, "", 0, 0, 0)
    {
      StopStreaming();
      events := [];
      currentBuffer := "";
      nextId := 0;
      emitted := 0;
      charIndex := 0;
    }
  }

  /** Numbering one more value continues the consecutive ids. */
  lemma StreamEventsAppend(objs: seq<Json>, obj: Json, firstId: nat, now: int)
    ensures StreamEvents(objs + [obj], firstId, now)
            == StreamEvents(objs, firstId, now) + [ToStreamEvent(obj, firstId + |objs|, now)]
  {
    assert (objs + [obj])[..|objs|] == objs;
  }

  /** The first `null` after `k` values that are not `null` is at position `k`. */
  lemma FirstNullAfterNonNull(objs: seq<Json>, k: nat)
    requires k < |objs| && objs[k] == JNull && JNull !in objs[..k]
    ensures FirstNull(objs) == Some(k)
  {
    var r := FirstNull(objs);
    assert objs[..k + 1][k] == JNull;
  }

  // ---------------------------------------------------------------------
  // The tick as written

  /**
   * What one tick appends in the program as written: the interval callback
   * compares with `events.length` as captured when the stream was started
   * (`stale`), not with the number of events shown since.
   */
  function StaleTickAppended(sampleData: string, charIndex: nat, stale: nat, decode: Decoder): (r: seq<Json>)
    requires charIndex < |sampleData|
    ensures var parsed := Scan(sampleData[..charIndex + 1], decode).objects;
            |parsed| > stale ==> |r| == |parsed| - stale && forall i :: 0 <= i < |r| ==> r[i] == parsed[stale + i]
    ensures |Scan(sampleData[..charIndex + 1], decode).objects| <= stale ==> r == []
  {
    var parsed := Scan(sampleData[..charIndex + 1], decode).objects;
    if |parsed| > stale then parsed[stale..] else []
  }

  /**
   * With `stale` fixed at 0, the text `{} ` revealed one character per tick
   * shows its one object twice: once when `}` arrives and again on the next
   * tick, which re-scans the same object.
   */
  lemma StaleTickShowsObjectTwice(sampleData: string, decode: Decoder)
    requires sampleData == "{} " && decode("{}").Some?
    ensures Scan(sampleData, decode).objects == [decode("{}").value]
    ensures StaleTickAppended(sampleData, 1, 0, decode) + StaleTickAppended(sampleData, 2, 0, decode)
            == [decode("{}").value, decode("{}").value]
  {
    var s2 := ScanState([decode("{}").value], ["{}"], "", 0, false, false);
    EmptyObjectIsEmitted(sampleData[..2], decode);
    assert sampleData[..3] == sampleData;
    TrailingSpaceIsInert(sampleData, s2, decode);
  }

  /** `{}` is emitted as soon as its `}` is read. */
  lemma EmptyObjectIsEmitted(text: string, decode: Decoder)
    requires text == "{}" && decode("{}").Some?
    ensures Scan(text, decode) == ScanState([decode("{}").value], ["{}"], "", 0, false, false)
  {
    var s1 := Initial.(current := "{", braceCount := 1);
    assert text[..1] == "{";
    ScanFromOne(Initial, '{', decode);
    assert Count(Initial, '{') == s1;
    assert Count(s1, '}') == s1.(current := "{}", braceCount := 0);
    TrimKeepsNonBlankEnds("{}");
  }

  /** A space after a completed value is kept in the accumulator and asks the decoder nothing. */
  lemma TrailingSpaceIsInert(text: string, s2: ScanState, decode: Decoder)
    requires |text| == 3 && text[2] == ' ' && Scan(text[..2], decode) == s2
    requires s2.current == "" && s2.braceCount == 0 && !s2.inString && !s2.escapeNext
    ensures Scan(text, decode) == s2.(current := " ")
  {
    assert Count(s2, ' ') == s2.(current := " ");
    TrimEmptyIffBlank(" ");
  }
  /**
   * Restarting without a reset, the captured count is the length of the old
   * event list. Once it reaches the number of values in the whole text, no
   * tick of the new run appends anything.
   */
  lemma RestartWithoutResetShowsNothing(sampleData: string, charIndex: nat, stale: nat, decode: Decoder)
    requires charIndex < |sampleData| && |Scan(sampleData, decode).objects| <= stale
    ensures StaleTickAppended(sampleData, charIndex, stale, decode) == []
  {
    ScanPrefixMonotone(sampleData[..charIndex + 1], sampleData, decode);
  }

  /**
   * A tick as written, where the position moves by the whole random step even
   * past the last character. This differs from `TickNext` only in the advance.
   */
  function TickNextAsWritten(st: Session, sampleData: string, decode: Decoder, step: nat, now: int): Session {
    if st.charIndex >= |sampleData| then
      st.(isStreaming := false, currentBuffer := "")
    else
      var buffer := sampleData[..st.charIndex + 1];
      ShowParsed(st, buffer, Scan(buffer, decode).objects, st.charIndex + step, now)
  }

  /**
   * As written, a step of two or more on the text `{}` jumps over the closing
   * brace: the stream ends without an event although the whole text holds one value.
   */
  lemma RandomStepSkipsLastCharacter(sampleData: string, decode: Decoder, step: nat, now: int)
    requires sampleData == "{}" && decode("{}").Some? && step >= 2
    ensures |Scan(sampleData, decode).objects| == 1
    ensures var first := TickNextAsWritten(Session([], true, "", 0, 0, 0), sampleData, decode, step, now);
            var last := TickNextAsWritten(first, sampleData, decode, step, now);
            && first.currentBuffer == "{"
            && !last.isStreaming && last.events == []
  {
    EmptyObjectIsEmitted(sampleData, decode);
    OpeningBrace(decode);
    assert sampleData[..1] == "{";
  }

  /**
   * With the clamped advance, the tick that ends the text has revealed all of
   * it: unless a `null` is pending, the events are then exactly the values of
   * the whole text.
   */
  lemma FinalTickShowsWholeText(st: Session, sampleData: string, decode: Decoder, step: nat, now: int)
    requires SessionValid(st, sampleData, decode) && st.charIndex < |sampleData| && step >= 1
    requires JNull !in Scan(sampleData, decode).objects
    requires |sampleData| <= TickNext(st, sampleData, decode, step, now).charIndex
    ensures var after := TickNext(st, sampleData, decode, step, now);
            var all := Scan(sampleData, decode).objects;
            && after.currentBuffer == sampleData
            && |after.events| == |all|
            && forall i :: 0 <= i < |all| ==> after.events[i].data == all[i]
  {
    var after := TickNext(st, sampleData, decode, step, now);
    assert after.charIndex == st.charIndex || after.charIndex == Advance(st.charIndex, step, |sampleData|);
    assert st.charIndex + 1 == |sampleData|;
    assert sampleData[..st.charIndex + 1] == sampleData;
    TickAppendsUnseen(st, sampleData, decode, step, now);
    TickCatchesUp(st, sampleData, decode, step, now);
  }
}
