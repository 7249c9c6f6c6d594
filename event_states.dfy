/**
 * Display of a group's current join/leave/fail event: the name table of
 * `ev_state_str` and the `"none"` / `"<NAME> node <id>"` rendering of
 * `state_str`, with the parsers that read those renderings back.
 */
module EventStates {
  import opened Wrappers
  import opened Format

  /* The daemon's event-state codes, as the tool copies them. */
  const EST_JOIN_BEGIN := 1
  const EST_JOIN_STOP_WAIT := 2
  const EST_JOIN_ALL_STOPPED := 3
  const EST_JOIN_START_WAIT := 4
  const EST_JOIN_ALL_STARTED := 5
  const EST_LEAVE_BEGIN := 6
  const EST_LEAVE_STOP_WAIT := 7
  const EST_LEAVE_ALL_STOPPED := 8
  const EST_LEAVE_START_WAIT := 9
  const EST_LEAVE_ALL_STARTED := 10
  const EST_FAIL_BEGIN := 11
  const EST_FAIL_STOP_WAIT := 12
  const EST_FAIL_ALL_STOPPED := 13
  const EST_FAIL_START_WAIT := 14
  const EST_FAIL_ALL_STARTED := 15

  predicate IsKnownState(state: int) {
    EST_JOIN_BEGIN <= state <= EST_FAIL_ALL_STARTED
  }

  /** `ev_state_str`: the name of an event state, `"unknown"` for any other code. */
  function EvStateStr(state: int): (r: string)
    ensures r == "unknown" <==> !IsKnownState(state)
    ensures 7 <= |r| <= 17
  {
    if state == EST_JOIN_BEGIN then "JOIN_BEGIN"
    else if state == EST_JOIN_STOP_WAIT then "JOIN_STOP_WAIT"
    else if state == EST_JOIN_ALL_STOPPED then "JOIN_ALL_STOPPED"
    else if state == EST_JOIN_START_WAIT then "JOIN_START_WAIT"
    else if state == EST_JOIN_ALL_STARTED then "JOIN_ALL_STARTED"
    else if state == EST_LEAVE_BEGIN then "LEAVE_BEGIN"
    else if state == EST_LEAVE_STOP_WAIT then "LEAVE_STOP_WAIT"
    else if state == EST_LEAVE_ALL_STOPPED then "LEAVE_ALL_STOPPED"
    else if state == EST_LEAVE_START_WAIT then "LEAVE_START_WAIT"
    else if state == EST_LEAVE_ALL_STARTED then "LEAVE_ALL_STARTED"
    else if state == EST_FAIL_BEGIN then "FAIL_BEGIN"
    else if state == EST_FAIL_STOP_WAIT then "FAIL_STOP_WAIT"
    else if state == EST_FAIL_ALL_STOPPED then "FAIL_ALL_STOPPED"
    else if state == EST_FAIL_START_WAIT then "FAIL_START_WAIT"
    else if state == EST_FAIL_ALL_STARTED then "FAIL_ALL_STARTED"
    else "unknown"
  }

  /** No two known states share a name. */
  lemma EvStateStrInjective(a: int, b: int)
    requires IsKnownState(a) && IsKnownState(b)
    requires EvStateStr(a) == EvStateStr(b)
    ensures a == b
  {
  }

  /** Reverse lookup of a state name among the codes `from` .. 15. */
  function StateCodeFrom(name: string, from: int): Option<int>
    decreases EST_FAIL_ALL_STARTED + 1 - from
  {
    if from > EST_FAIL_ALL_STARTED then None
    else if EvStateStr(from) == name then Some(from)
    else StateCodeFrom(name, from + 1)
  }

  /** The code a displayed state name stands for; `"unknown"` stands for none. */
  function EvStateCode(name: string): Option<int> {
    StateCodeFrom(name, EST_JOIN_BEGIN)
  }

  lemma {:induction false} StateCodeFromName(state: int, from: int)
    requires EST_JOIN_BEGIN <= from <= EST_FAIL_ALL_STARTED + 1
    ensures StateCodeFrom(EvStateStr(state), from)
         == if IsKnownState(state) && from <= state then Some(state) else None
    decreases EST_FAIL_ALL_STARTED + 1 - from
  {
    if from <= EST_FAIL_ALL_STARTED && from != state {
      if IsKnownState(state) && EvStateStr(from) == EvStateStr(state) {
        EvStateStrInjective(from, state);
      }
      StateCodeFromName(state, from + 1);
    }
  }

  /** The name of a known state identifies it; every other code reads back as no state. */
  lemma EvStateCodeRoundTrip(state: int)
    ensures EvStateCode(EvStateStr(state)) == if IsKnownState(state) then Some(state) else None
  {
    StateCodeFromName(state, EST_JOIN_BEGIN);
  }

  /** `snprintf(buf, 31, ...)` in `state_str`. */
  const STATE_BUF_SIZE := 31

  /** The full text `state_str` formats for an active event, before truncation. */
  function EventText(eventState: int, eventNodeid: int): string {
    EvStateStr(eventState) + " node " + Decimal(eventNodeid)
  }

  /** `state_str`: how the listing shows a group's event state and node. */
  function StateStr(eventState: int32, eventNodeid: int32): (r: string)
    ensures |r| < STATE_BUF_SIZE
    ensures r == "none" <==> eventState == 0 && eventNodeid == 0
    ensures r != "none" ==> r <= EventText(eventState, eventNodeid)
    ensures r != "none" && |EventText(eventState, eventNodeid)| < STATE_BUF_SIZE
            ==> r == EventText(eventState, eventNodeid)
    ensures r != "none" && STATE_BUF_SIZE <= |EventText(eventState, eventNodeid)|
            ==> r == EventText(eventState, eventNodeid)[..STATE_BUF_SIZE - 1]
  {
    if eventState == 0 && eventNodeid == 0 then "none"
    else Snprintf(EventText(eventState, eventNodeid), STATE_BUF_SIZE)
  }

  /** The node id of any event whose node id has at most seven characters is shown in full. */
  lemma EventTextFits(eventState: int32, eventNodeid: int32)
    requires -1_000_000 < eventNodeid < 10_000_000
    ensures |EventText(eventState, eventNodeid)| < STATE_BUF_SIZE
  {
    assert Pow(10, 7) == 10_000_000;
    DecimalLength(eventNodeid, 7);
  }

  /** What a state column says: no active event, or a state name and a node. */
  datatype Rendered = NoEvent | Event(stateName: string, nodeid: int)

  /** Reads a state column as `state_str` writes it; the node id is what follows the last space. */
  function ParseStateStr(r: string): Option<Rendered> {
    if r == "none" then Some(NoEvent)
    else match LastSpace(r)
      case None => None
      case Some(k) =>
        if 5 <= k && r[k - 5..k + 1] == " node " then
          match ParseDecimal(r[k + 1..])
          case Some(n) => Some(Event(r[..k - 5], n))
          case None => None
        else None
  }

  /** `"<name> node <id>"` reads back as that name and id, whatever the name. */
  lemma EventTextRoundTrip(name: string, nodeid: int)
    ensures ParseStateStr(name + " node " + Decimal(nodeid)) == Some(Event(name, nodeid))
  {
    var d := Decimal(nodeid);
    assert |name + " node " + d| > 4;
    LastSpaceAfter(name + " node ", d);
    Parts(name, " node ", d);
    DecimalRoundTrip(nodeid);
  }

  /**
   * Whenever `state_str` did not have to truncate, its output reads back as
   * the event it was given: `"none"` for no event, otherwise the state's
   * name (which identifies a known state, see `EvStateCodeRoundTrip`) and the node id.
   */
  lemma StateStrRoundTrip(eventState: int32, eventNodeid: int32)
    requires |EventText(eventState, eventNodeid)| < STATE_BUF_SIZE
    ensures ParseStateStr(StateStr(eventState, eventNodeid))
         == Some(if eventState == 0 && eventNodeid == 0 then NoEvent
                 else Event(EvStateStr(eventState), eventNodeid))
  {
    if !(eventState == 0 && eventNodeid == 0) {
      EventTextRoundTrip(EvStateStr(eventState), eventNodeid);
    }
  }

  /** Examples: no event, an event with its node, an unknown state with a node. */
  lemma StateStrExamples()
    ensures StateStr(0, 0) == "none"
    ensures StateStr(EST_JOIN_BEGIN, 3) == "JOIN_BEGIN node 3"
    ensures StateStr(0, 5) == "unknown node 5"
  {
    assert Decimal(3) == "3";
    assert Decimal(5) == "5";
  }

  /**
   * The longest names with the largest node id do not fit: the rendering is
   * cut to the first 30 of its 33 characters.
   */
  lemma StateStrTruncates()
    ensures |EventText(EST_LEAVE_ALL_STOPPED, 0x7fff_ffff)| == 33
    ensures StateStr(EST_LEAVE_ALL_STOPPED, 0x7fff_ffff)
         == EventText(EST_LEAVE_ALL_STOPPED, 0x7fff_ffff)[..STATE_BUF_SIZE - 1]
  {
    assert Pow(10, 9) == 1_000_000_000 && Pow(10, 10) == 10_000_000_000;
    DigitsLength(0x7fff_ffff, 10, 10);
    DigitsLengthAtLeast(0x7fff_ffff, 10, 9);
  }
}
