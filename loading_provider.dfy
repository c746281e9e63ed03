/** The global loading flag: true while the intro animation plays, cleared
    once by the loading screen's completion callback, with the body and
    content styles and the loading screen derived from it. */
module LoadingProvider {
  import opened Wrappers

  /** The value the provider shares with the page. */
  datatype LoadingContext = LoadingContext(isLoading: bool)

  /** The message `useLoading` throws outside a provider. */
  const OutsideProviderError: string := "useLoading must be used within a LoadingProvider"

  /** `useLoading`: the provider's value, or the error when no provider
      supplied one (`context === undefined`). */
  function UseLoading(context: Option<LoadingContext>): (r: Result<LoadingContext, string>)
    ensures r.Ok? <==> context.Some?
    ensures r.Ok? ==> r.value == context.value
    ensures r.Err? ==> r.error == OutsideProviderError
  {
    match context
    case Some(c) => Ok(c)
    case None => Err(OutsideProviderError)
  }

  /** The body style the effect writes: `overflow` and `backgroundColor`. */
  datatype BodyStyle = BodyStyle(overflow: string, backgroundColor: string)

  /** Both properties reset to the empty string, as the effect's cleanup
      leaves them on unmount and before every re-run. */
  const ResetBody: BodyStyle := BodyStyle("", "")

  /** The body style after the effect for `isLoading` has run. */
  function BodyStyleFor(isLoading: bool): (b: BodyStyle)
    ensures isLoading ==> b.overflow == "hidden" && b.backgroundColor == "#3C4433"
    ensures !isLoading ==> b == ResetBody
  {
    if isLoading then BodyStyle("hidden", "#3C4433") else ResetBody
  }

  /** Scrolling is locked exactly while loading. */
  lemma BodyLockedIffLoading(isLoading: bool)
    ensures BodyStyleFor(isLoading).overflow == "hidden" <==> isLoading
    ensures BodyStyleFor(isLoading).overflow == "" <==> !isLoading
  {
  }

  /** The content wrapper's style: opacity and visibility. */
  datatype ContentStyle = ContentStyle(opacity: int, visibility: string)

  function ContentStyleFor(isLoading: bool): (c: ContentStyle)
    ensures isLoading <==> c == ContentStyle(0, "hidden")
    ensures !isLoading <==> c == ContentStyle(1, "visible")
  {
    if isLoading then ContentStyle(0, "hidden") else ContentStyle(1, "visible")
  }

  /** Whether the loading screen is rendered (`isLoading && <WebsiteLoading .../>`). */
  predicate LoadingScreenRendered(isLoading: bool) {
    isLoading
  }

  /** The loading screen and the visible content never show together, and one
      of them always does. */
  lemma ScreenXorContent(isLoading: bool)
    ensures LoadingScreenRendered(isLoading) <==> ContentStyleFor(isLoading).visibility == "hidden"
    ensures !LoadingScreenRendered(isLoading) <==> ContentStyleFor(isLoading).opacity == 1
  {
  }

  /** `handleLoadingComplete`, applied to the flag. */
  function Complete(isLoading: bool): bool {
    false
  }

  /** The flag after `n` completion callbacks, starting from the initial `true`. */
  function AfterCompletions(n: nat): bool {
    if n == 0 then true else Complete(AfterCompletions(n - 1))
  }

  /** The flag is true before the first completion and false from then on:
      completion is idempotent and the flag never reverts. */
  lemma {:induction false} FlagMonotone(n: nat, m: nat)
    requires n <= m
    ensures AfterCompletions(n) == (n == 0)
    ensures !AfterCompletions(n) ==> !AfterCompletions(m)
  {
    if n > 0 {
      FlagMonotone(n - 1, m);
    }
    if m > 0 && n < m {
      FlagMonotone(n, m - 1);
    }
  }

  /** The provider component, owning `isLoading` and writing the body style. */
  class Provider {
    var isLoading: bool
    /** The document body's style as the effect last left it. */
    var body: BodyStyle

    /** The body style matches the flag. */
    predicate Valid()
      reads this
    {
      body == BodyStyleFor(isLoading)
    }

    /** First render and its effect run. */
    constructor ()
      ensures isLoading && Valid()
    {
      isLoading := true;
      body := BodyStyleFor(true);
    }

    /** `handleLoadingComplete`; when the flag changes, the previous effect
        run's cleanup and the effect for the new flag follow. */
    method HandleLoadingComplete()
      requires Valid()
      modifies this
      ensures isLoading == Complete(old(isLoading)) && Valid()
      ensures !old(isLoading) ==> body == old(body)
    {
      if isLoading {
        isLoading := false;
        body := BodyStyleFor(isLoading);
      }
    }

    /** The effect's cleanup when the provider unmounts. */
    method Unmount()
      modifies this
      ensures body == ResetBody && isLoading == old(isLoading)
    {
      body := ResetBody;
    }

    /** The context value the provider shares. */
    /** The provider's context value, as a consumer reads it through `useLoading`. */
    function Context(): (ctx: LoadingContext)
      reads this
      ensures UseLoading(Some(ctx)) == Ok(ctx)
      ensures ctx.isLoading == isLoading
    {
      LoadingContext(isLoading)
    }
  }
}
