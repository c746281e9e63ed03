/** The country selector dropdown: the list of countries other than the
    selected one, a selection handler that reports the choice and then asks
    to close, and an animation gate that skips the first effect run and waits
    until the closed baseline has been set. */
module CountrySelector {

  datatype Country = Country(code: string, name: string, flag: string)

  /** The fixed country list, in display order. */
  const Countries: seq<Country> := [
    Country("usa", "United States (USD)", "/images/usa.svg"),
    Country("ger", "Germany (EUR)", "/images/Ger.svg"),
    Country("fr", "Czechia (CZK)", "/images/fr.svg")
  ]

  /** `countries.filter((country) => country.code !== code)`. */
  function ExcludeCode(s: seq<Country>, code: string): seq<Country> {
    if s == [] then [] else (if s[0].code != code then [s[0]] else []) + ExcludeCode(s[1..], code)
  }

  /** The filter keeps exactly the entries whose code differs. */
  lemma {:induction false} ExcludeCodeMembers(s: seq<Country>, code: string)
    ensures forall c :: c in ExcludeCode(s, code) <==> c in s && c.code != code
  {
    if s != [] {
      ExcludeCodeMembers(s[1..], code);
      assert forall c :: c in s <==> c == s[0] || c in s[1..];
    }
  }

  /** The number of entries of `s` whose code is `code`. */
  function CountCode(s: seq<Country>, code: string): nat {
    if s == [] then 0 else (if s[0].code == code then 1 else 0) + CountCode(s[1..], code)
  }

  /** The filter removes exactly the entries carrying the code. */
  lemma {:induction false} ExcludeCodeLength(s: seq<Country>, code: string)
    ensures |ExcludeCode(s, code)| == |s| - CountCode(s, code)
  {
    if s != [] {
      ExcludeCodeLength(s[1..], code);
    }
  }

  /** No two entries share a code. */
  predicate DistinctCodes(s: seq<Country>) {
    forall i, j :: 0 <= i < j < |s| ==> s[i].code != s[j].code
  }

  /** With distinct codes, a code occurs at most once, and exactly once when
      some entry carries it. */
  lemma {:induction false} CountDistinct(s: seq<Country>, code: string)
    requires DistinctCodes(s)
    ensures CountCode(s, code) == if exists c :: c in s && c.code == code then 1 else 0
  {
    if s != [] {
      assert DistinctCodes(s[1..]) by {
        forall i, j | 0 <= i < j < |s[1..]| ensures s[1..][i].code != s[1..][j].code {
          assert s[1..][i] == s[i + 1] && s[1..][j] == s[j + 1];
        }
      }
      CountDistinct(s[1..], code);
      if s[0].code == code {
        forall c | c in s[1..] ensures c.code != code {
          var k :| 0 <= k < |s[1..]| && s[1..][k] == c;
          assert s[k + 1] == c;
        }
      } else {
        forall c | c in s && c.code == code ensures c in s[1..] {
        }
      }
    }
  }

  /** The filter works piece by piece, so it keeps the original order:
      filtering a concatenation filters each part and keeps them in sequence. */
  lemma {:induction false} ExcludeCodeConcat(a: seq<Country>, b: seq<Country>, code: string)
    ensures ExcludeCode(a + b, code) == ExcludeCode(a, code) + ExcludeCode(b, code)
  {
    if a == [] {
      assert a + b == b;
    } else {
      ExcludeCodeConcat(a[1..], b, code);
      var ab := a + b;
      assert ab[0] == a[0] && ab[1..] == a[1..] + b;
      var head := if a[0].code != code then [a[0]] else [];
      assert ExcludeCode(ab, code) == head + ExcludeCode(ab[1..], code);
      assert ExcludeCode(a, code) == head + ExcludeCode(a[1..], code);
    }
  }

  /** The countries offered: every country but the selected one. */
  function Displayed(selected: Country): seq<Country> {
    ExcludeCode(Countries, selected.code)
  }

  /** The displayed list never holds the selected country's code; for a
      selected country from the list it holds the other two, in list order,
      and for any other code it holds all three. */
  lemma DisplayedExcludesSelected(selected: Country)
    ensures forall c :: c in Displayed(selected) ==> c.code != selected.code
    ensures forall c :: c in Countries && c.code != selected.code ==> c in Displayed(selected)
    ensures selected in Countries ==> |Displayed(selected)| == 2
    ensures selected.code == "usa" ==> Displayed(selected) == [Countries[1], Countries[2]]
    ensures selected.code == "ger" ==> Displayed(selected) == [Countries[0], Countries[2]]
    ensures selected.code == "fr" ==> Displayed(selected) == [Countries[0], Countries[1]]
    ensures selected.code !in {"usa", "ger", "fr"} ==> Displayed(selected) == Countries
  {
    assert DistinctCodes(Countries);
    ExcludeCodeMembers(Countries, selected.code);
    ExcludeCodeLength(Countries, selected.code);
    CountDistinct(Countries, selected.code);
  }

  /** A call the selector makes into its parent. */
  datatype Callback = SelectCountry(country: Country) | Close

  /** Overlay and content animation targets: opacities and the content's
      vertical offset in pixels. */
  datatype Targets = Targets(overlayOpacity: int, contentOpacity: int, contentY: int)

  /** Fully shown: both opaque, content in place. */
  const OpenTargets: Targets := Targets(1, 1, 0)

  /** The closed baseline: both transparent, content 10px up. */
  const ClosedTargets: Targets := Targets(0, 0, -10)

  /** The animation targets for an `isOpen` value. */
  function TargetsFor(isOpen: bool): (t: Targets)
    ensures isOpen ==> t == OpenTargets
    ensures !isOpen ==> t == ClosedTargets
    ensures (t.overlayOpacity == 1) <==> isOpen
  {
    if isOpen then OpenTargets else ClosedTargets
  }

  /** What an effect run does to the overlay and the content. */
  datatype Action = NoAction | SetClosedBaseline | Animate(to: Targets)

  /** The two refs that gate the selector's effects. */
  datatype Gate = Gate(isFirstRender: bool, isMounted: bool, timerPending: bool)

  /** Before any effect has run. */
  const InitialGate: Gate := Gate(true, false, false)

  /** The mount effect: with both elements attached it sets the closed
      baseline and schedules the timer that marks the component mounted. */
  function MountEffect(g: Gate, attached: bool): (r: (Gate, Action))
    ensures r.1 == SetClosedBaseline <==> attached
    ensures !r.1.Animate?
    ensures r.0.timerPending <==> g.timerPending || attached
    ensures r.0.isFirstRender == g.isFirstRender && r.0.isMounted == g.isMounted
  {
    if attached then (g.(timerPending := true), SetClosedBaseline) else (g, NoAction)
  }

  /** The scheduled timer firing. */
  function TimerFires(g: Gate): (r: Gate)
    ensures !r.timerPending
    ensures r.isMounted <==> g.isMounted || g.timerPending
    ensures r.isFirstRender == g.isFirstRender
  {
    if g.timerPending then g.(isMounted := true, timerPending := false) else g
  }

  /** The effect that runs whenever `isOpen` changes. */
  function OpenEffect(g: Gate, isOpen: bool, attached: bool): (r: (Gate, Action))
    ensures r.0.isMounted == g.isMounted && r.0.timerPending == g.timerPending
    ensures r.0.isFirstRender ==> g.isFirstRender
    ensures r.1.Animate? ==> g.isMounted && r.1.to == TargetsFor(isOpen)
  {
    if !attached then (g, NoAction)
    else if g.isFirstRender then (g.(isFirstRender := false), if isOpen then NoAction else SetClosedBaseline)
    else if !g.isMounted then (g, NoAction)
    else (g, Animate(TargetsFor(isOpen)))
  }

  /** The first run of the open effect never animates: it clears the flag and
      only resets the baseline when closed. */
  lemma FirstRunNeverAnimates(g: Gate, isOpen: bool)
    requires g.isFirstRender
    ensures !OpenEffect(g, isOpen, true).1.Animate?
    ensures !OpenEffect(g, isOpen, true).0.isFirstRender
    ensures OpenEffect(g, isOpen, true).1 == SetClosedBaseline <==> !isOpen
  {
  }

  /** The open effect animates exactly when it is past its first run and the
      component is mounted, and then towards the targets for `isOpen`. */
  lemma AnimatesOnlyWhenReady(g: Gate, isOpen: bool, attached: bool)
    ensures OpenEffect(g, isOpen, attached).1.Animate? <==> attached && !g.isFirstRender && g.isMounted
    ensures OpenEffect(g, isOpen, attached).1.Animate? ==> OpenEffect(g, isOpen, attached).1.to == TargetsFor(isOpen)
  {
  }

  /** What happens to the selector over its lifetime. */
  datatype Event = Mount(attached: bool) | Timer | IsOpenChanged(isOpen: bool, attached: bool)

  function StepGate(g: Gate, e: Event): (Gate, Action) {
    match e
    case Mount(attached) => MountEffect(g, attached)
    case Timer => (TimerFires(g), NoAction)
    case IsOpenChanged(isOpen, attached) => OpenEffect(g, isOpen, attached)
  }

  /** The gate after a run of events. */
  function RunGate(g: Gate, events: seq<Event>): Gate {
    if events == [] then g else StepGate(RunGate(g, events[..|events| - 1]), events[|events| - 1]).0
  }

  /** A mount with both elements attached at index `i`, and the timer firing
      later, at index `j`. */
  predicate MountThenTimer(events: seq<Event>, i: int, j: int) {
    0 <= i < j < |events| && events[i] == Mount(true) && events[j] == Timer
  }

  /** The component counts as mounted only once the timer has fired after a
      mount with both elements attached; a timer is pending only after such a
      mount. */
  lemma {:induction false} MountedOnlyAfterMountAndTimer(events: seq<Event>)
    ensures RunGate(InitialGate, events).isMounted ==> exists i, j :: MountThenTimer(events, i, j)
    ensures RunGate(InitialGate, events).timerPending ==> exists i :: 0 <= i < |events| && events[i] == Mount(true)
  {
    if events != [] {
      var n := |events| - 1;
      var init := events[..n];
      MountedOnlyAfterMountAndTimer(init);
      var g := RunGate(InitialGate, init);
      if RunGate(InitialGate, events).isMounted {
        if g.isMounted {
          var i, j :| MountThenTimer(init, i, j);
          assert MountThenTimer(events, i, j);
        } else {
          assert events[n] == Timer && g.timerPending;
          var i :| 0 <= i < |init| && init[i] == Mount(true);
          assert MountThenTimer(events, i, n);
        }
      }
      if RunGate(InitialGate, events).timerPending {
        if g.timerPending {
          var i :| 0 <= i < |init| && init[i] == Mount(true);
          assert events[i] == Mount(true);
        } else {
          assert events[n] == Mount(true);
        }
      }
    }
  }

  /** Starting from the initial gate, an `isOpen` change animates only when
      the timer has fired after an attached mount: no animation before the
      component has set its closed baseline and marked itself mounted. */
  lemma NoAnimationBeforeMounted(events: seq<Event>, isOpen: bool, attached: bool)
    requires forall i, j :: !MountThenTimer(events, i, j)
    ensures !OpenEffect(RunGate(InitialGate, events), isOpen, attached).1.Animate?
  {
    MountedOnlyAfterMountAndTimer(events);
  }

  /** `handleCountrySelect`: report the country to the parent, then ask to close. */
  function HandleCountrySelect(c: Country): (calls: seq<Callback>)
    ensures |calls| == 2 && calls[0] == SelectCountry(c) && calls[1] == Close
  {
    [SelectCountry(c), Close]
  }

  /** The overlay's style: `pointerEvents` and `visibility`. */
  datatype OverlayStyle = OverlayStyle(pointerEvents: string, visibility: string)

  function OverlayStyleFor(isOpen: bool): OverlayStyle {
    if isOpen then OverlayStyle("auto", "visible") else OverlayStyle("none", "hidden")
  }

  /** The dropdown container's `visibility`. */
  function ContainerVisibility(isOpen: bool): string {
    if isOpen then "visible" else "hidden"
  }

  /** The overlay takes pointer events and shows, and the dropdown shows,
      exactly when the selector is open. */
  lemma StylesFollowIsOpen(isOpen: bool)
    ensures OverlayStyleFor(isOpen).pointerEvents == "auto" <==> isOpen
    ensures OverlayStyleFor(isOpen).visibility == "visible" <==> isOpen
    ensures ContainerVisibility(isOpen) == "visible" <==> isOpen
    ensures !isOpen ==> OverlayStyleFor(isOpen).pointerEvents == "none" && OverlayStyleFor(isOpen).visibility == "hidden"
  {
  }

  /** The parent callbacks a click on the backdrop invokes. The overlay's
      handler is `onClose`, but the click reaches the overlay only while it
      takes pointer events; otherwise it falls through to the page beneath. */
  function OverlayClick(isOpen: bool): (calls: seq<Callback>)
    ensures calls == [Close] <==> isOpen
    ensures !isOpen ==> calls == []
  {
    if OverlayStyleFor(isOpen).pointerEvents == "auto" then [Close] else []
  }

  /** The selector component: its two refs and the calls it has made. */
  class Selector {
    var isFirstRender: bool
    var isMounted: bool
    /** Whether the mount effect's timer is scheduled but has not fired. */
    var timerPending: bool
    /** The parent callbacks invoked so far, in order. */
    var calls: seq<Callback>

    function State(): Gate
      reads this
    {
      Gate(isFirstRender, isMounted, timerPending)
    }

    constructor ()
      ensures State() == InitialGate && calls == []
    {
      isFirstRender, isMounted, timerPending := true, false, false;
      calls := [];
    }

    method OnMount(attached: bool) returns (action: Action)
      modifies this
      ensures (State(), action) == MountEffect(old(State()), attached)
      ensures calls == old(calls)
    {
      action := NoAction;
      if attached {
        action := SetClosedBaseline;
        timerPending := true;
      }
    }

    method OnTimer()
      modifies this
      ensures State() == TimerFires(old(State()))
      ensures calls == old(calls)
    {
      if timerPending {
        isMounted := true;
        timerPending := false;
      }
    }

    method OnIsOpenChange(isOpen: bool, attached: bool) returns (action: Action)
      modifies this
      ensures (State(), action) == OpenEffect(old(State()), isOpen, attached)
      ensures calls == old(calls)
    {
      if !attached {
        return NoAction;
      }
      if isFirstRender {
        isFirstRender := false;
        action := if isOpen then NoAction else SetClosedBaseline;
        return;
      }
      if !isMounted {
        return NoAction;
      }
      action := Animate(TargetsFor(isOpen));
    }

    method OnCountryClick(c: Country)
      modifies this
      ensures calls == old(calls) + HandleCountrySelect(c)
      ensures State() == old(State())
    {
      calls := calls + [SelectCountry(c)];
      calls := calls + [Close];
    }

    method OnOverlayClick(isOpen: bool)
      modifies this
      ensures calls == old(calls) + OverlayClick(isOpen)
      ensures State() == old(State())
    {
      if isOpen {
        calls := calls + [Close];
      }
    }
  }
}
