/** The heading text animation: the text becomes one inline unit per
    character, spaces are rendered as no-break spaces so they keep their
    width, and the unit elements are animated once the text is split. */
module HeadingTextAnimation {
  import opened Wrappers

  /** U+00A0, the no-break space a space is rendered as. */
  const Nbsp: char := '\U{00A0}'

  /** `text.split("")`: one single-character string per character, in order. */
  function SplitChars(text: string): (units: seq<string>)
    ensures |units| == |text|
    ensures forall i :: 0 <= i < |text| ==> units[i] == [text[i]]
  {
    if text == [] then [] else [[text[0]]] + SplitChars(text[1..])
  }

  /** The units joined back together. */
  function Join(units: seq<string>): string {
    if units == [] then [] else units[0] + Join(units[1..])
  }

  /** Splitting loses nothing: joining the units gives back the text. */
  lemma {:induction false} JoinSplit(text: string)
    ensures Join(SplitChars(text)) == text
  {
    if text != [] {
      JoinSplit(text[1..]);
    }
  }

  /** What one unit displays: a space becomes a no-break space, anything else is shown as is. */
  function RenderUnit(unit: string): string {
    if unit == " " then [Nbsp] else unit
  }

  /** The displayed content of every unit element, in order. */
  function Rendered(units: seq<string>): (shown: seq<string>)
    ensures |shown| == |units|
    ensures forall i :: 0 <= i < |units| ==> shown[i] == RenderUnit(units[i])
  {
    if units == [] then [] else [RenderUnit(units[0])] + Rendered(units[1..])
  }

  /** The text is rendered as one unit per character; unit `i` shows
      character `i`, except that a space shows as a no-break space. */
  lemma RenderedText(text: string)
    ensures |Rendered(SplitChars(text))| == |text|
    ensures forall i :: 0 <= i < |text| ==>
      Rendered(SplitChars(text))[i] == [if text[i] == ' ' then Nbsp else text[i]]
    ensures forall i :: 0 <= i < |text| && text[i] != ' ' ==> Rendered(SplitChars(text))[i] == [text[i]]
  {
  }

  /** Turns no-break spaces back into spaces. */
  function Unrender(shown: seq<string>): string {
    if shown == [] then [] else (if shown[0] == [Nbsp] then " " else shown[0]) + Unrender(shown[1..])
  }

  /** For a text without no-break spaces of its own, the rendering can be
      undone: nothing but spaces was changed, and the order is kept. */
  lemma {:induction false} UnrenderRendered(text: string)
    requires forall i :: 0 <= i < |text| ==> text[i] != Nbsp
    ensures Unrender(Rendered(SplitChars(text))) == text
  {
    if text != [] {
      UnrenderRendered(text[1..]);
      assert SplitChars(text)[1..] == SplitChars(text[1..]);
      assert Rendered(SplitChars(text))[1..] == Rendered(SplitChars(text[1..]));
    }
  }

  /** Whether the animation effect sets up tweens: it returns early when the
      container is not attached, when there are no units yet, or when no unit
      element is found in the container. */
  predicate AnimationSetUp(containerAttached: bool, chars: seq<string>) {
    containerAttached && |chars| != 0 && |Rendered(chars)| != 0
  }

  /** For the empty text nothing is rendered and no animation is set up; for
      a non-empty text the animation is set up once the container is attached. */
  lemma EmptyTextNoAnimation(text: string, containerAttached: bool)
    ensures text == [] ==> Rendered(SplitChars(text)) == [] && !AnimationSetUp(containerAttached, SplitChars(text))
    ensures text != [] ==> (AnimationSetUp(containerAttached, SplitChars(text)) <==> containerAttached)
  {
  }

  /** A registered scroll trigger and the element it watches. */
  datatype Trigger = Trigger(id: nat, target: nat)

  /** Whether a trigger's element is `containerRef.current`: never when the
      reference is null, as it is once the component has unmounted. */
  predicate WatchesContainer(t: Trigger, container: Option<nat>) {
    container == Some(t.target)
  }

  /** The triggers of a registry that watch `container`, in registry order. */
  function Watching(registry: seq<Trigger>, container: Option<nat>): seq<Trigger> {
    if registry == [] then []
    else Watching(registry[..|registry| - 1], container)
         + if WatchesContainer(registry[|registry| - 1], container) then [registry[|registry| - 1]] else []
  }

  /** The triggers of a registry that watch something else, in registry order. */
  function NotWatching(registry: seq<Trigger>, container: Option<nat>): seq<Trigger> {
    if registry == [] then []
    else NotWatching(registry[..|registry| - 1], container)
         + if !WatchesContainer(registry[|registry| - 1], container) then [registry[|registry| - 1]] else []
  }

  /** The two filters split the registry: what is killed watches the container,
      what survives does not, and together they account for every trigger. */
  lemma {:induction false} WatchingPartition(registry: seq<Trigger>, container: Option<nat>)
    ensures forall t :: t in Watching(registry, container) ==> t in registry && container == Some(t.target)
    ensures forall t :: t in NotWatching(registry, container) ==> t in registry && container != Some(t.target)
    ensures forall t :: t in registry ==> t in Watching(registry, container) || t in NotWatching(registry, container)
    ensures |Watching(registry, container)| + |NotWatching(registry, container)| == |registry|
  {
    if registry != [] {
      var init := registry[..|registry| - 1];
      WatchingPartition(init, container);
      assert registry == init + [registry[|registry| - 1]];
    }
  }

  /** With the container reference null, as it is when the cleanup runs at
      unmount, no trigger matches: the loop kills nothing and keeps the
      registry whole. Whether `animation.kill()` removes the tween's own
      trigger is up to the animation library and is not modelled. */
  lemma {:induction false} DetachedKillsNothing(registry: seq<Trigger>)
    ensures Watching(registry, None) == []
    ensures NotWatching(registry, None) == registry
  {
    if registry != [] {
      DetachedKillsNothing(registry[..|registry| - 1]);
      assert registry == registry[..|registry| - 1] + [registry[|registry| - 1]];
    }
  }

  /** The effect's cleanup: `ScrollTrigger.getAll().forEach(...)` kills every
      trigger whose target is `containerRef.current` and leaves the rest. When
      the cleanup re-runs after a change of the units, delay or stagger, the
      reference is the container; at unmount it is null and nothing is killed. */
  method KillContainerTriggers(registry: seq<Trigger>, container: Option<nat>) returns (killed: seq<Trigger>, alive: seq<Trigger>)
    ensures killed == Watching(registry, container)
    ensures alive == NotWatching(registry, container)
    ensures container.None? ==> killed == [] && alive == registry
  {
    killed, alive := [], [];
    var i := 0;
    while i < |registry|
      invariant 0 <= i <= |registry|
      invariant killed == Watching(registry[..i], container)
      invariant alive == NotWatching(registry[..i], container)
    {
      assert registry[..i + 1][..i] == registry[..i];
      if WatchesContainer(registry[i], container) {
        killed := killed + [registry[i]];
      } else {
        alive := alive + [registry[i]];
      }
      i := i + 1;
    }
    assert registry[..i] == registry;
    if container.None? {
      DetachedKillsNothing(registry);
    }
  }
}
