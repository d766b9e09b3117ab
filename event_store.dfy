/**
 * The event store of the `AIAgentParser` viewer: the text box, the events it
 * last parsed, the error line and the set of event types the user filters
 * on, together with the views the page derives from them (the distinct
 * types, the filtered list, per-type counts and the first and last
 * timestamps).
 */
module EventStore {
  import opened JsonValue
  import opened Scanner

  const BlankInputMessage := "Please enter some JSON data to parse"
  const NoObjectsMessage := "No valid JSON objects found in the input"
  const ParseErrorPrefix := "Parse error: "

  /** The label of an event whose `event` property is missing or falsy. */
  const UnknownEvent := JString("Unknown")

  /**
   * One parsed event. `createdAt` and `event` keep whatever JSON value the
   * input held there; `data` is the whole decoded value.
   */
  datatype AgentEvent = AgentEvent(id: nat, createdAt: Json, event: Json, data: Json)

  // ---------------------------------------------------------------------
  // From decoded values to events

  /** The event made from the decoded value at position `index`. */
  function ToEvent(obj: Json, index: nat, now: int): (r: AgentEvent)
    ensures Truthy(r.event)
    ensures r.event == UnknownEvent || Field(obj, "event") == Some(r.event)
    ensures now != 0 ==> Truthy(r.createdAt)
  {
    AgentEvent(index, FieldOr(obj, "created_at", JNumber(now)), FieldOr(obj, "event", UnknownEvent), obj)
  }

  /**
   * `parsedObjects.map((obj, index) => ...)`. Reading a property of `null`
   * throws, so a `null` anywhere among the values gives no events at all.
   */
  function MakeEvents(objs: seq<Json>, now: int): (r: Option<seq<AgentEvent>>)
    ensures r.None? <==> JNull in objs
    ensures r.Some? ==> |r.value| == |objs|
    ensures r.Some? ==> forall i :: 0 <= i < |objs| ==>
              && r.value[i].id == i
              && r.value[i].data == objs[i]
              && r.value[i].createdAt == FieldOr(objs[i], "created_at", JNumber(now))
              && r.value[i].event == FieldOr(objs[i], "event", UnknownEvent)
    decreases |objs|
  {
    if |objs| == 0 then Some([])
    else
      var init := MakeEvents(objs[..|objs| - 1], now);
      var last := objs[|objs| - 1];
      assert objs == objs[..|objs| - 1] + [last];
      if init.None? || last == JNull then None
      else Some(init.value + [ToEvent(last, |objs| - 1, now)])
  }

  /** The ids of the events are their positions. */
  predicate DenseIds(es: seq<AgentEvent>) {
    forall i :: 0 <= i < |es| ==> es[i].id == i
  }

  /** Ids grow strictly along the list. */
  predicate IdsIncreasing(es: seq<AgentEvent>) {
    forall i, j :: 0 <= i < j < |es| ==> es[i].id < es[j].id
  }

  // ---------------------------------------------------------------------
  // The distinct event types

  /** The labels that occur among the events. */
  function TypesOf(es: seq<AgentEvent>): set<Json> {
    set e | e in es :: e.event
  }

  predicate Distinct(ts: seq<Json>) {
    forall i, j :: 0 <= i < j < |ts| ==> ts[i] != ts[j]
  }

  /** `Array.from(new Set(events.map((event) => event.event)))`. */
  function EventTypes(es: seq<AgentEvent>): (r: seq<Json>)
    ensures Distinct(r)
    ensures forall t :: t in r <==> t in TypesOf(es)
    decreases |es|
  {
    if |es| == 0 then []
    else
      var init := es[..|es| - 1];
      var t := es[|es| - 1].event;
      assert es == init + [es[|es| - 1]];
      assert TypesOf(es) == TypesOf(init) + {t};
      var r := EventTypes(init);
      if t in r then r else r + [t]
  }

  /** Reading more events only appends new types: the types of a prefix are a prefix of the types. */
  lemma {:induction false} EventTypesOfPrefix(es: seq<AgentEvent>, k: nat)
    requires k <= |es|
    ensures EventTypes(es[..k]) <= EventTypes(es)
    decreases |es| - k
  {
    if k < |es| {
      EventTypesOfPrefix(es, k + 1);
      assert es[..k + 1][..k] == es[..k];
    } else {
      assert es[..k] == es;
    }
  }

  /**
   * First-seen order: an event whose type has not occurred before it puts
   * that type right after the types of the events before it.
   */
  lemma EventTypesFirstSeen(es: seq<AgentEvent>, k: nat)
    requires k < |es| && es[k].event !in TypesOf(es[..k])
    ensures |EventTypes(es[..k])| < |EventTypes(es)|
    ensures EventTypes(es)[|EventTypes(es[..k])|] == es[k].event
  {
    assert es[..k + 1][..k] == es[..k];
    assert EventTypes(es[..k + 1]) == EventTypes(es[..k]) + [es[k].event];
    EventTypesOfPrefix(es, k + 1);
  }

  // ---------------------------------------------------------------------
  // The filter

  /** `events.filter((event) => selected.has(event.event))`. */
  function Select(es: seq<AgentEvent>, selected: set<Json>): (r: seq<AgentEvent>)
    ensures |r| <= |es|
    ensures forall e :: e in r <==> e in es && e.event in selected
    decreases |es|
  {
    if |es| == 0 then []
    else
      var init := es[..|es| - 1];
      var last := es[|es| - 1];
      assert es == init + [last];
      if last.event in selected then Select(init, selected) + [last] else Select(init, selected)
  }

  /** The filtered view: an empty selection shows every event. */
  function FilteredEvents(es: seq<AgentEvent>, selected: set<Json>): (r: seq<AgentEvent>)
    ensures forall e :: e in r <==> e in es && (selected == {} || e.event in selected)
    ensures selected == {} ==> r == es
  {
    if |selected| == 0 then es else Select(es, selected)
  }

  /** Filtering keeps order: filtering a concatenation concatenates the filtered parts. */
  lemma {:induction false} SelectAppend(a: seq<AgentEvent>, b: seq<AgentEvent>, selected: set<Json>)
    ensures Select(a + b, selected) == Select(a, selected) + Select(b, selected)
    decreases |b|
  {
    if |b| == 0 {
      assert a + b == a;
    } else {
      var b' := b[..|b| - 1];
      assert (a + b)[..|a + b| - 1] == a + b';
      SelectAppend(a, b', selected);
    }
  }

  /** Filtering keeps ids increasing, so the view lists events in their original order. */
  lemma {:induction false} SelectKeepsOrder(es: seq<AgentEvent>, selected: set<Json>)
    requires IdsIncreasing(es)
    ensures IdsIncreasing(Select(es, selected))
    decreases |es|
  {
    if |es| > 0 {
      var init := es[..|es| - 1];
      SelectKeepsOrder(init, selected);
      var r := Select(init, selected);
      forall e | e in r
        ensures e.id < es[|es| - 1].id
      {
        var i :| 0 <= i < |init| && init[i] == e;
      }
    }
  }

  // ---------------------------------------------------------------------
  // Statistics over the filtered view

  /** The `reduce` that counts events per label: `acc[event.event] = (acc[event.event] || 0) + 1`. */
  function CountByType(es: seq<AgentEvent>): (m: map<Json, nat>)
    ensures m.Keys == TypesOf(es)
    decreases |es|
  {
    if |es| == 0 then map[]
    else
      var init := es[..|es| - 1];
      var t := es[|es| - 1].event;
      assert es == init + [es[|es| - 1]];
      assert TypesOf(es) == TypesOf(init) + {t};
      var m := CountByType(init);
      m[t := (if t in m then m[t] else 0) + 1]
  }

  /** The count shown for a label is the number of events carrying it. */
  lemma {:induction false} CountIsNumberOfEvents(es: seq<AgentEvent>, t: Json)
    ensures t in CountByType(es) ==> CountByType(es)[t] == |Select(es, {t})|
    ensures t !in CountByType(es) ==> |Select(es, {t})| == 0
    decreases |es|
  {
    if |es| > 0 {
      CountIsNumberOfEvents(es[..|es| - 1], t);
    }
  }

  /** The sum of `m[t]` over the labels `ts`, a missing label counting zero. */
  function SumOver(m: map<Json, nat>, ts: seq<Json>): nat
    decreases |ts|
  {
    if |ts| == 0 then 0 else (if ts[0] in m then m[ts[0]] else 0) + SumOver(m, ts[1..])
  }

  /** Raising the count of a label that occurs once among `ts` raises the sum by one. */
  lemma {:induction false} SumOverIncrement(m: map<Json, nat>, ts: seq<Json>, t: Json)
    requires Distinct(ts) && t in ts && t in m
    ensures SumOver(m[t := m[t] + 1], ts) == SumOver(m, ts) + 1
    decreases |ts|
  {
    if ts[0] == t {
      assert t !in ts[1..];
      SumOverUnchanged(m, ts[1..], t, m[t] + 1);
    } else {
      SumOverIncrement(m, ts[1..], t);
    }
  }

  /** Updating a label outside `ts` leaves the sum over `ts` alone. */
  lemma {:induction false} SumOverUnchanged(m: map<Json, nat>, ts: seq<Json>, t: Json, v: nat)
    requires t !in ts
    ensures SumOver(m[t := v], ts) == SumOver(m, ts)
    decreases |ts|
  {
    if |ts| > 0 {
      SumOverUnchanged(m, ts[1..], t, v);
    }
  }

  /** Appending a label to the end adds its count to the sum. */
  lemma {:induction false} SumOverAppend(m: map<Json, nat>, ts: seq<Json>, t: Json)
    requires t in m
    ensures SumOver(m, ts + [t]) == SumOver(m, ts) + m[t]
    decreases |ts|
  {
    if |ts| == 0 {
      assert [t][1..] == [];
    } else {
      assert (ts + [t])[1..] == ts[1..] + [t];
      SumOverAppend(m, ts[1..], t);
    }
  }

  /** The per-type counts add up to the number of events shown. */
  lemma {:induction false} CountsSumToLength(es: seq<AgentEvent>)
    ensures SumOver(CountByType(es), EventTypes(es)) == |es|
    decreases |es|
  {
    if |es| > 0 {
      var init := es[..|es| - 1];
      var t := es[|es| - 1].event;
      var m := CountByType(init);
      var ts := EventTypes(init);
      CountsSumToLength(init);
      if t in ts {
        SumOverIncrement(m, ts, t);
      } else {
        SumOverUnchanged(m, ts, t, 1);
        SumOverAppend(m[t := 1], ts, t);
      }
    }
  }

  /**
   * `Math.min(...events.map((e) => e.created_at))` over a non-empty view; a
   * timestamp that is not a number makes the result `NaN`, here `None`.
   */
  function MinCreatedAt(es: seq<AgentEvent>): (r: Option<int>)
    requires |es| > 0
    ensures r.Some? <==> forall i :: 0 <= i < |es| ==> es[i].createdAt.JNumber?
    ensures r.Some? ==> exists i :: 0 <= i < |es| && es[i].createdAt == JNumber(r.value)
    ensures r.Some? ==> forall i :: 0 <= i < |es| ==> r.value <= es[i].createdAt.n
    decreases |es|
  {
    var last := es[|es| - 1].createdAt;
    if !last.JNumber? then None
    else if |es| == 1 then Some(last.n)
    else
      var m := MinCreatedAt(es[..|es| - 1]);
      if m.None? then None
      else if last.n < m.value then Some(last.n) else m
  }

  /** `Math.max(...events.map((e) => e.created_at))` over a non-empty view. */
  function MaxCreatedAt(es: seq<AgentEvent>): (r: Option<int>)
    requires |es| > 0
    ensures r.Some? <==> forall i :: 0 <= i < |es| ==> es[i].createdAt.JNumber?
    ensures r.Some? ==> exists i :: 0 <= i < |es| && es[i].createdAt == JNumber(r.value)
    ensures r.Some? ==> forall i :: 0 <= i < |es| ==> es[i].createdAt.n <= r.value
    decreases |es|
  {
    var last := es[|es| - 1].createdAt;
    if !last.JNumber? then None
    else if |es| == 1 then Some(last.n)
    else
      var m := MaxCreatedAt(es[..|es| - 1]);
      if m.None? then None
      else if last.n > m.value then Some(last.n) else m
  }

  /** The first timestamp shown is never later than the last one. */
  lemma FirstNotAfterLast(es: seq<AgentEvent>)
    requires |es| > 0
    ensures MinCreatedAt(es).Some? <==> MaxCreatedAt(es).Some?
    ensures MinCreatedAt(es).Some? ==> MinCreatedAt(es).value <= MaxCreatedAt(es).value
  {
  }

  // ---------------------------------------------------------------------
  // The component state

  /** The state of one `AIAgentParser` page. */
  class AIAgentParser {
    var inputText: string
    var events: seq<AgentEvent>
    var parseError: Option<string>
    var selectedEventTypes: set<Json>
    /** `JSON.parse`. */
    const decode: Decoder

    /** Events are numbered by their position, as `handleParse` numbers them. */
    predicate Valid()
      reads this
    {
      DenseIds(events)
    }

    /** Nothing typed, nothing parsed, no error, no filter. */
    predicate IsCleared()
      reads this
    {
      inputText == "" && events == [] && parseError == None && selectedEventTypes == {}
    }

    constructor(decode: Decoder)
      ensures this.decode == decode
      ensures IsCleared() && Valid()
    {
      this.decode := decode;
      inputText := "";
      events := [];
      parseError := None;
      selectedEventTypes := {};
    }

    /** Typing into the text box. */
    method SetInputText(text: string)
      modifies this
      ensures inputText == text
      ensures events == old(events) && parseError == old(parseError)
      ensures selectedEventTypes == old(selectedEventTypes)
    {
      inputText := text;
    }

    /**
     * `handleParse`. `now` stands for `Date.now() / 1000`, and `typeError`
     * for the message of the `TypeError` a property read on `null` throws.
     */
    method HandleParse(now: int, typeError: string)
      requires Valid()
      modifies this
      ensures Valid() && IdsIncreasing(events)
      ensures inputText == old(inputText)
      ensures Trim(inputText) == "" ==>
                && parseError == Some(BlankInputMessage)
                && events == old(events) && selectedEventTypes == old(selectedEventTypes)
      ensures Trim(inputText) != "" && |Scan(inputText, decode).objects| == 0 ==>
                && parseError == Some(NoObjectsMessage)
                && events == old(events) && selectedEventTypes == old(selectedEventTypes)
      ensures Trim(inputText) != "" && JNull in Scan(inputText, decode).objects ==>
                && parseError == Some(ParseErrorPrefix + typeError)
                && events == old(events) && selectedEventTypes == old(selectedEventTypes)
      ensures var objs := Scan(inputText, decode).objects;
              Trim(inputText) != "" && |objs| > 0 && JNull !in objs ==>
                && MakeEvents(objs, now).Some?
                && events == MakeEvents(objs, now).value
                && parseError == None && selectedEventTypes == {}
    {
      if Trim(inputText) == "" {
        parseError := Some(BlankInputMessage);
        return;
      }
      parseError := None;
      var parsedObjects := ParseJSONObjects(inputText, decode);
      if |parsedObjects| == 0 {
        parseError := Some(NoObjectsMessage);
        return;
      }
      var newEvents := MakeEvents(parsedObjects, now);
      if newEvents.None? {
        parseError := Some(ParseErrorPrefix + typeError);
        return;
      }
      events := newEvents.value;
      selectedEventTypes := {};
    }

    /** `handleClear`; clearing a cleared page changes nothing. */
    method HandleClear()
      modifies this
      ensures IsCleared() && Valid()
      ensures old(IsCleared()) ==> unchanged(this)
    {
      inputText := "";
      events := [];
      parseError := None;
      selectedEventTypes := {};
    }

    /** `handleEventTypeToggle`: checking adds the type to the filter, unchecking removes it. */
    method HandleEventTypeToggle(eventType: Json, checked: bool)
      modifies this
      ensures checked ==> selectedEventTypes == old(selectedEventTypes) + {eventType}
      ensures !checked ==> selectedEventTypes == old(selectedEventTypes) - {eventType}
      ensures eventType in selectedEventTypes <==> checked
      ensures forall o :: o != eventType ==> (o in selectedEventTypes <==> o in old(selectedEventTypes))
      ensures inputText == old(inputText) && events == old(events) && parseError == old(parseError)
    {
      var newSelected := selectedEventTypes;
      if checked {
        newSelected := newSelected + {eventType};
      } else {
        newSelected := newSelected - {eventType};
      }
      selectedEventTypes := newSelected;
    }

    /** `clearFilters`: the view shows every event again. */
    method ClearFilters()
      modifies this
      ensures selectedEventTypes == {}
      ensures FilteredEvents(events, selectedEventTypes) == events
      ensures inputText == old(inputText) && events == old(events) && parseError == old(parseError)
    {
      selectedEventTypes := {};
    }
  }
}
