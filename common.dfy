// Helpers of common.cpp: trimming the strings read from devices, and the
// host power state tracker that notifies its subscribers on a change.
module Common {
  import opened Wrappers

  /** The characters trimmed by default: tab, newline, vertical tab, form
    * feed, carriage return, space and the byte 0xFF. */
  const DefaultTrimChars: string := ['\t', '\n', '\U{0B}', '\U{0C}', '\r', ' ', '\U{FF}']

  /** `[[:print:]]` in the C locale. */
  predicate IsPrint(c: char)
  {
    ' ' <= c <= '~'
  }

  /** `s.erase(s.find_last_not_of(chars) + 1)`: drops the trailing run of
    * characters from `chars` (everything, when all are in `chars`). */
  function TrimRight(s: string, chars: string): (r: string)
    ensures |r| <= |s| && r == s[..|r|]
    ensures r == [] || r[|r| - 1] !in chars
    ensures forall i :: |r| <= i < |s| ==> s[i] in chars
  {
    if s == [] || s[|s| - 1] !in chars then s else TrimRight(s[..|s| - 1], chars)
  }

  /** `s.resize(strlen(s.c_str()))`: cuts the string at its first NUL. */
  function CutAtNul(s: string): (r: string)
    ensures |r| <= |s| && r == s[..|r|]
    ensures '\0' !in r
    ensures |r| < |s| ==> s[|r|] == '\0'
  {
    if s == [] then []
    else if s[0] == '\0' then []
    else [s[0]] + CutAtNul(s[1..])
  }

  /** `regex_replace(s, "[^[:print:]]", "_")`. */
  function ReplaceUnprintable(s: string): (r: string)
    ensures |r| == |s|
    ensures forall i :: 0 <= i < |s| ==> r[i] == if IsPrint(s[i]) then s[i] else '_'
  {
    seq(|s|, i requires 0 <= i < |s| => if IsPrint(s[i]) then s[i] else '_')
  }

  predicate AllPrintable(s: string)
  {
    forall i :: 0 <= i < |s| ==> IsPrint(s[i])
  }

  /** rtrim: trims the trailing characters from `chars`, then cuts at the
    * first NUL, then replaces every unprintable character with '_' unless the
    * string is non-empty and entirely printable. The result is printable,
    * as long as the trimmed text up to its first NUL, and keeps each of its
    * printable characters in place. */
  function Rtrim(s: string, chars: string): (r: string)
    ensures |r| <= |s|
    ensures |r| == |CutAtNul(TrimRight(s, chars))|
    ensures AllPrintable(r)
    ensures forall i :: 0 <= i < |r| ==> r[i] == if IsPrint(s[i]) then s[i] else '_'
  {
    var t := CutAtNul(TrimRight(s, chars));
    if |t| > 0 && AllPrintable(t) then t else ReplaceUnprintable(t)
  }

  /** On a string without NUL, the default rtrim leaves no trailing trim
    * character. */
  lemma RtrimNoTrailingTrimChar(s: string)
    requires '\0' !in s
    ensures var r := Rtrim(s, DefaultTrimChars); r == [] || r[|r| - 1] !in DefaultTrimChars
  {
    var u := TrimRight(s, DefaultTrimChars);
    CutAtNulNoNul(u);
  }

  lemma CutAtNulNoNul(s: string)
    requires '\0' !in s
    ensures CutAtNul(s) == s
  {
    if s != [] {
      assert '\0' !in s[1..];
      CutAtNulNoNul(s[1..]);
    }
  }

  /** On a string without NUL, the default rtrim is idempotent. */
  lemma RtrimIdempotent(s: string)
    requires '\0' !in s
    ensures Rtrim(Rtrim(s, DefaultTrimChars), DefaultTrimChars) == Rtrim(s, DefaultTrimChars)
  {
    var r := Rtrim(s, DefaultTrimChars);
    RtrimNoTrailingTrimChar(s);
    assert '\0' !in r by {
      assert forall i :: 0 <= i < |r| ==> IsPrint(r[i]);
    }
    assert TrimRight(r, DefaultTrimChars) == r;
    CutAtNulNoNul(r);
  }

  /** Because the NUL cut comes after trimming, a NUL-padded buffer keeps a
    * space that precedes its padding: rtrim of "1.0 " followed by a NUL is
    * "1.0 ", which a second rtrim shortens to "1.0". */
  lemma RtrimKeepsSpaceBeforeNul()
    ensures Rtrim("1.0 \0", DefaultTrimChars) == "1.0 "
    ensures Rtrim("1.0 ", DefaultTrimChars) == "1.0"
  {
    RtrimPaddedExample();
    RtrimSpaceExample();
  }

  lemma RtrimPaddedExample()
    ensures Rtrim("1.0 \0", DefaultTrimChars) == "1.0 "
  {
    assert "1.0 \0"[4] !in DefaultTrimChars;
    assert TrimRight("1.0 \0", DefaultTrimChars) == "1.0 \0";
    assert CutAtNul("1.0 \0") == "1.0 " by {
      assert "1.0 \0"[1..] == ".0 \0";
      assert ".0 \0"[1..] == "0 \0";
      assert "0 \0"[1..] == " \0";
      assert " \0"[1..] == "\0";
    }
    assert AllPrintable("1.0 ");
  }

  lemma RtrimSpaceExample()
    ensures Rtrim("1.0 ", DefaultTrimChars) == "1.0"
  {
    assert TrimRight("1.0 ", DefaultTrimChars) == "1.0" by {
      assert "1.0 "[..3] == "1.0";
      assert "1.0"[2] !in DefaultTrimChars;
    }
    CutAtNulNoNul("1.0");
    assert AllPrintable("1.0");
  }

  /** The host state reported by the host state manager. */
  datatype HostState =
    | HostOff | Running | Quiesced | DiagnosticMode | Standby
    | TransitioningToRunning | TransitioningToOff

  /** Whether a host state counts as powered. */
  function HostStateToBool(s: HostState): (on: bool)
    ensures on <==> s in {Running, Quiesced, DiagnosticMode}
  {
    s == Running || s == Quiesced || s == DiagnosticMode
  }

  datatype SystemPowerState = PowerOff | PowerOn | PowerUnknown

  /** A subscriber's callback, identified by a token. */
  type CallbackId = nat

  /** One round of notifications: the callbacks registered at that moment,
    * each called with the new state. The calls go in ascending order of
    * name; the model does not keep that order. */
  datatype Delivery = Delivery(recipients: map<string, CallbackId>, state: bool)

  /** The tracked state after a report of `state`, and whether subscribers are
    * notified. */
  function PowerTransition(current: SystemPowerState, state: bool): (SystemPowerState, bool)
  {
    var next := if state then PowerOn else PowerOff;
    (next, next != current)
  }

  /** A report that repeats the tracked state notifies nobody, whatever the
    * state was before; the first report after start-up always notifies. */
  lemma PowerTransitionIdempotent(current: SystemPowerState, state: bool)
    ensures var (next, _) := PowerTransition(current, state);
      !PowerTransition(next, state).1 && PowerTransition(next, state).0 == next
    ensures PowerTransition(PowerUnknown, state).1
  {
  }

  class PowerState {
    var powerState: SystemPowerState
    var callbacks: map<string, CallbackId>
    /** Whether the propertiesChanged subscription exists. */
    var subscribed: bool
    var deliveries: seq<Delivery>

    /** Without a callback: nothing subscribed yet, state unknown. */
    constructor ()
      ensures powerState == PowerUnknown && callbacks == map[] && !subscribed && deliveries == []
    {
      powerState := PowerUnknown;
      callbacks := map[];
      subscribed := false;
      deliveries := [];
    }

    /** With a callback: registers it as "default", which subscribes and
      * reads the host state (`host`, None when the D-Bus call fails). */
    constructor WithCallback(callback: CallbackId, host: Option<HostState>)
      ensures callbacks == map["default" := callback] && subscribed
      ensures host.None? ==> powerState == PowerUnknown && deliveries == []
      ensures host.Some? ==>
        powerState == (if HostStateToBool(host.value) then PowerOn else PowerOff) &&
        deliveries == [Delivery(callbacks, HostStateToBool(host.value))]
    {
      powerState := PowerUnknown;
      callbacks := map[];
      subscribed := false;
      deliveries := [];
      new;
      AddCallback("default", callback, host);
    }

    function IsPowerOn(): (on: bool)
      reads this
      ensures on <==> powerState == PowerOn
    {
      powerState == PowerOn
    }

    /** Records the new state and notifies every callback, only when it
      * differs from the tracked one. */
    method SetPowerState(state: bool)
      modifies this`powerState, this`deliveries
      ensures (powerState, |deliveries| > |old(deliveries)|) == PowerTransition(old(powerState), state)
      ensures deliveries == old(deliveries) ||
        (old(powerState) != powerState && deliveries == old(deliveries) + [Delivery(callbacks, state)])
    {
      var newState := if state then PowerOn else PowerOff;
      if newState != powerState {
        powerState := newState;
        deliveries := deliveries + [Delivery(callbacks, state)];
      }
    }

    /** A name already registered keeps its callback. The first registration
      * subscribes to host state changes and reads the current host state. */
    method AddCallback(name: string, callback: CallbackId, host: Option<HostState>)
      modifies this
      ensures callbacks == if name in old(callbacks) then old(callbacks) else old(callbacks)[name := callback]
      ensures subscribed
      ensures old(subscribed) || host.None? ==>
        powerState == old(powerState) && deliveries == old(deliveries)
      ensures !old(subscribed) && host.Some? ==>
        (powerState, |deliveries| > |old(deliveries)|) ==
          PowerTransition(old(powerState), HostStateToBool(host.value)) &&
        (deliveries == old(deliveries) ||
         deliveries == old(deliveries) + [Delivery(callbacks, HostStateToBool(host.value))])
    {
      if name !in callbacks {
        callbacks := callbacks[name := callback];
      }
      if !subscribed {
        subscribed := true;
        ReadHostState(host);
      }
    }

    method DeleteCallback(name: string)
      modifies this`callbacks
      ensures callbacks == old(callbacks) - {name}
    {
      callbacks := callbacks - {name};
    }

    /** The answer to the Get call for the host state, None when it fails. */
    method ReadHostState(host: Option<HostState>)
      modifies this`powerState, this`deliveries
      ensures host.None? ==> powerState == old(powerState) && deliveries == old(deliveries)
      ensures host.Some? ==>
        (powerState, |deliveries| > |old(deliveries)|) ==
          PowerTransition(old(powerState), HostStateToBool(host.value)) &&
        (deliveries == old(deliveries) ||
         deliveries == old(deliveries) + [Delivery(callbacks, HostStateToBool(host.value))])
    {
      if host.Some? {
        SetPowerState(HostStateToBool(host.value));
      }
    }

    /** A propertiesChanged signal; `changed` is the new host state when the
      * signal carries one. */
    method HostStateChanged(changed: Option<HostState>)
      modifies this`powerState, this`deliveries
      ensures changed.None? ==> powerState == old(powerState) && deliveries == old(deliveries)
      ensures changed.Some? ==>
        (powerState, |deliveries| > |old(deliveries)|) ==
          PowerTransition(old(powerState), HostStateToBool(changed.value)) &&
        (deliveries == old(deliveries) ||
         deliveries == old(deliveries) + [Delivery(callbacks, HostStateToBool(changed.value))])
    {
      ReadHostState(changed);
    }
  }
}
