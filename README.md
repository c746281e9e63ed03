# Storefront interaction logic, modelled in Dafny

This project models the small amount of sequential logic in a marketing
storefront built from React components with GSAP animations. Almost all of the
storefront is markup and calls into the animation library. What is left, and
what is modelled here, is:

- the **hero carousel**: a slide index stepped modulo the number of slides,
  set directly by the indicator buttons, and the strip offset and active
  indicator derived from it (`hero.dfy`, module `Hero`);
- the **best-selling section**: a fixed catalogue of nine products sliced into
  three categories, a category selector, a one-shot `shouldAnimate` flag set by
  a viewport trigger, and the heading delays and entrance tweens gated on it
  (`best_selling.dfy`, module `BestSelling`);
- the **heading text animation**: the text split into one unit per character,
  spaces rendered as no-break spaces, the guard that skips the animation for
  an empty text, and the cleanup that kills only this component's triggers
  (`heading_text.dfy`, module `HeadingTextAnimation`);
- the **country selector**: the country list without the selected country,
  the selection handler (select, then close), the gate that skips the first
  effect run and waits for the mounted flag, and the styles and animation
  targets for open and closed (`country_selector.dfy`, module `CountrySelector`);
- the **product card**: the favourite toggle, the callbacks that report the
  product id, propagation of clicks, and the discount badge
  (`product_card.dfy`, module `ProductCard`);
- the **image container**: the size-override rule, the default size classes,
  the inline width/height, and the class string (`image_container.dfy`, module
  `ImageContainer`);
- the **loading provider**: the global `isLoading` flag that starts true and is
  cleared once, the `useLoading` error outside a provider, and the body and
  content styles derived from the flag (`loading_provider.dfy`, module
  `LoadingProvider`);
- the **product section hotspots**: the hovered hotspot (none, 1 or 2), the
  popover anchor computed from a marker's rectangle, the positions map, and
  the animation target of each popover container (`product_section.dfy`,
  module `ProductSection`).

`wrappers.dfy` holds the `Option` and `Result` types used for `undefined`
values, detached DOM references and the thrown error.

Each component that keeps state has a value type for that state and pure
step functions, which the lemmas reason about (for instance over any
sequence of user actions). It also has a class whose fields are the
component's state and whose methods are specified by those step functions.

Three behaviours of the code are worth stating plainly:

- Hotspot popovers open on hover (`onMouseEnter`/`onMouseLeave`). There is no
  pinned state and no click-outside handling.
- The discount badge appears when `product.discount` is truthy, so an empty
  discount string shows no badge.
- Likewise, a width or height counts as given only when it is a non-empty
  string.

## Model

| member | source | states |
|---|---|---|
| Hero.NextIndex | app/component/Hero.tsx:13-15 | the next index under JavaScript's `%`; from any valid index (or -1) it lies in [0, N) and wraps from N-1 to 0, otherwise it is i+1 |
| Hero.PrevIndex | app/component/Hero.tsx:17-19 | the previous index `(i-1+N) % N`; never negative for i >= 1-N, lies in [0, N), and wraps from 0 to N-1 |
| Hero.PrevUndoesNext | app/component/Hero.tsx:13-19 | prev after next, and next after prev, restore any valid index |
| Hero.NextTimesIsModular | app/component/Hero.tsx:13-15 | k presses of the next arrow from a valid index i give (i+k) mod N |
| Hero.NextFullCycle | app/component/Hero.tsx:13-15 | N presses of next return to the start, and no fewer positive number of presses does |
| Hero.IndicatorsMatchSlides | app/component/Hero.tsx:87-90 | the indicator buttons pass exactly the indices 0..N-1 of the two slides |
| Hero.RunStaysInRange | app/component/Hero.tsx:7-23 | from a valid index, any sequence of next, prev and indicator presses keeps the index in [0, N) |
| Hero.OffsetShowsCurrentSlide | app/component/Hero.tsx:29-34 | with offset -current*100%, slide j starts at the viewport's left edge iff j is current; earlier slides are left of it, later ones right |
| Hero.ExactlyOneIndicatorActive | app/component/Hero.tsx:87-95 | for a valid index, exactly one indicator is active, the one equal to `currentImage` |
| Hero.Step | app/component/Hero.tsx:13-23 | one press of next, prev or indicator k: from a valid index a button action stays in [0, N), and indicator k sets the index to exactly k |
| Hero.Run | app/component/Hero.tsx:7-23 | the index after a sequence of presses, each applied to the index the previous one left; `RunStaysInRange` states what it keeps |
| Hero.SlideOffset | app/component/Hero.tsx:31 | the strip's `translateX` in percent, `-currentImage * 100`; `OffsetShowsCurrentSlide` states which slide it shows |
| Hero.IndicatorActive | app/component/Hero.tsx:92 | indicator `index` is drawn active when `currentImage === index`; `ExactlyOneIndicatorActive` states that one and only one is |
| Hero.Carousel.constructor | app/component/Hero.tsx:7 | the index starts at 0 |
| Hero.Carousel.NextImage | app/component/Hero.tsx:13-15 | the index becomes NextIndex of the old one and stays valid |
| Hero.Carousel.PrevImage | app/component/Hero.tsx:17-19 | the index becomes PrevIndex of the old one and stays valid |
| Hero.Carousel.GoToImage | app/component/Hero.tsx:21-23 | the index becomes exactly k; it is valid iff k is one of the indicator indices |
| ProductCard.InitialState | app/component/ProductCard.tsx:27 | `favorited` starts as `isFavorite`, with no callbacks invoked |
| ProductCard.FavoriteClick | app/component/ProductCard.tsx:29-35 | the heart handler: negate `favorited` and report the id when `onFavoriteClick` is given; `FavoriteClickEffect`, `FavoriteToggleUndoes` and `FavoritedParity` state its effect |
| ProductCard.CardClick | app/component/ProductCard.tsx:37-41 | the card handler: report the id when `onCardClick` is given; `CardClickEffect` states its effect |
| ProductCard.Click | app/component/ProductCard.tsx:29-46 | a click on the heart runs only the heart handler, since it stops propagation; a click elsewhere on the card runs the card handler |
| ProductCard.FavoriteClickEffect | app/component/ProductCard.tsx:29-35 | a heart click negates `favorited`, reports the product id once to the favourite callback when present (never otherwise), and never reaches the card-click callback |
| ProductCard.FavoriteToggleUndoes | app/component/ProductCard.tsx:29-31 | two heart clicks restore `favorited` |
| ProductCard.FavoritedParity | app/component/ProductCard.tsx:29-31 | after any clicks, `favorited` equals its initial value iff the heart was clicked an even number of times |
| ProductCard.CardClickEffect | app/component/ProductCard.tsx:37-41 | a card click reports the id when the callback is present, is a no-op otherwise, and never changes `favorited` |
| ProductCard.DiscountBadge | app/component/ProductCard.tsx:71-75 | the badge is shown iff the discount is present and non-empty, and it shows the discount text |
| ProductCard.HeartFill | app/component/ProductCard.tsx:56 | the heart is filled iff favourited |
| ProductCard.Card.constructor | app/component/ProductCard.tsx:21-27 | the card's state is the initial state for its props |
| ProductCard.Card.HandleFavoriteClick | app/component/ProductCard.tsx:29-35 | the card's state becomes that of a heart click |
| ProductCard.Card.HandleCardClick | app/component/ProductCard.tsx:37-41 | the card's state becomes that of a card-body click |
| BestSelling.Slice | app/component/BestSelling.tsx:248-252 | `slice(start, end)` yields the elements from start up to the end clamped to the length, in order |
| BestSelling.ProductsByCategory | app/component/BestSelling.tsx:245-256 | `getProductsByCategory`: a catalogue slice per category name, `[]` for any other string; `CategoryIds`, `CategorySize`, `CategoriesCoverCatalogue` and `CategoriesDisjoint` state which products |
| BestSelling.CategoryIds | app/component/BestSelling.tsx:245-255 | Cleansers are ids 1-3, Lotions 4-6, Moisturizers 7-9; any other category string yields the empty list |
| BestSelling.CategorySize | app/component/BestSelling.tsx:245-255 | each of the three categories yields exactly 3 products, any other string 0 |
| BestSelling.CategoriesCoverCatalogue | app/component/BestSelling.tsx:169-252 | the three slices in button order concatenate to the whole catalogue in its original order |
| BestSelling.CategoriesDisjoint | app/component/BestSelling.tsx:245-252 | no product belongs to two categories |
| BestSelling.CatalogueBadges | app/component/BestSelling.tsx:169-242 | the cards for products 1, 3, 4, 6, 7 and 9, and only those, show a discount badge |
| BestSelling.ExactlyOneButtonActive | app/component/BestSelling.tsx:344-358 | when the active category is a button's category, exactly one button is active |
| BestSelling.ButtonActive | app/component/BestSelling.tsx:345 | button i is active when the active category equals its category; `ExactlyOneButtonActive` states that one and only one is |
| BestSelling.Step | app/component/BestSelling.tsx:61-68 | a click on button i selects its category; the viewport trigger sets `shouldAnimate` |
| BestSelling.Run | app/component/BestSelling.tsx:61-68 | over any run a raised `shouldAnimate` stays raised, and the active category is the initial one or a button's category |
| BestSelling.RunInvariants | app/component/BestSelling.tsx:61-68 | over any run of clicks and viewport entries, `shouldAnimate` is raised iff it was raised before or the viewport was entered, so it never falls; the active category stays a button's category |
| BestSelling.EnterViewportIdempotent | app/component/BestSelling.tsx:64-67 | a second viewport entry changes nothing |
| BestSelling.HeadingDelaysMs | app/component/BestSelling.tsx:275-325 | while `shouldAnimate` is false every heading delay is 0; once set the delays increase line by line |
| BestSelling.EntranceTweensGated | app/component/BestSelling.tsx:75-163 | no entrance tween starts while `shouldAnimate` is false; once set, each attached element gets exactly one tween, with its own delay, and no detached element gets one |
| BestSelling.EntranceTweens | app/component/BestSelling.tsx:75-163 | no entrance tween while `shouldAnimate` is false, and never more tweens than there are effects |
| BestSelling.TweensFor | app/component/BestSelling.tsx:75-163 | at most one tween per listed effect, only for attached elements, each with its element's delay |
| BestSelling.Section.constructor | app/component/BestSelling.tsx:16-17 | `shouldAnimate` starts false and the active category is "Cleansers" |
| BestSelling.Section.ClickCategory | app/component/BestSelling.tsx:349 | a click on button i sets the active category to that button's category |
| BestSelling.Section.OnEnter | app/component/BestSelling.tsx:64-66 | the trigger's callback sets `shouldAnimate` |
| BestSelling.Section.DisplayedProducts | app/component/BestSelling.tsx:258 | the products shown are the slice for the active category: three for a button's category, none otherwise; `CategoryIds` states which |
| HeadingTextAnimation.SplitChars | app/component/HeadingTextAnimation.tsx:26-28 | the text becomes one single-character unit per character, in order |
| HeadingTextAnimation.JoinSplit | app/component/HeadingTextAnimation.tsx:27 | joining the units gives back the text |
| HeadingTextAnimation.Rendered | app/component/HeadingTextAnimation.tsx:83-91 | one rendered element per unit, each showing its unit's rendering |
| HeadingTextAnimation.RenderUnit | app/component/HeadingTextAnimation.tsx:89 | a unit `" "` is shown as U+00A0, any other unit as itself; `RenderedText` and `UnrenderRendered` state the effect on a whole text |
| HeadingTextAnimation.RenderedText | app/component/HeadingTextAnimation.tsx:83-91 | the number of rendered units equals the text length; unit i shows text[i], a space showing as U+00A0; non-space characters are unchanged |
| HeadingTextAnimation.UnrenderRendered | app/component/HeadingTextAnimation.tsx:89 | for a text without no-break spaces of its own, mapping U+00A0 back to a space recovers the text |
| HeadingTextAnimation.EmptyTextNoAnimation | app/component/HeadingTextAnimation.tsx:30-35 | the empty text renders no units and sets up no animation; a non-empty one sets it up iff the container is attached |
| HeadingTextAnimation.AnimationSetUp | app/component/HeadingTextAnimation.tsx:31-35 | the effect sets up tweens only with the container attached, a non-empty unit list and some unit element found; `EmptyTextNoAnimation` states the empty-text case |
| HeadingTextAnimation.WatchesContainer | app/component/HeadingTextAnimation.tsx:65 | a trigger matches when its element is `containerRef.current`; a null reference matches no trigger |
| HeadingTextAnimation.Watching | app/component/HeadingTextAnimation.tsx:62-68 | the triggers the cleanup kills, in registry order; `WatchingPartition` and `DetachedKillsNothing` state which |
| HeadingTextAnimation.NotWatching | app/component/HeadingTextAnimation.tsx:62-68 | the triggers the cleanup leaves registered, in registry order |
| HeadingTextAnimation.WatchingPartition | app/component/HeadingTextAnimation.tsx:62-68 | the triggers killed all watch the container, the survivors all watch something else, and together they are the whole registry |
| HeadingTextAnimation.DetachedKillsNothing | app/component/HeadingTextAnimation.tsx:62-68 | with the container reference null, as at unmount, no trigger is killed and the registry stays whole |
| HeadingTextAnimation.KillContainerTriggers | app/component/HeadingTextAnimation.tsx:62-68 | the cleanup loop kills exactly the triggers watching `containerRef.current`, in registry order, and leaves the rest; with a null reference, as at unmount, it kills none |
| CountrySelector.ExcludeCodeMembers | app/component/CountrySelector.tsx:140-141 | a country is displayed iff it is in the list and its code differs from the selected code |
| CountrySelector.ExcludeCode | app/component/CountrySelector.tsx:140-141 | `countries.filter(country => country.code !== code)`; `ExcludeCodeMembers`, `ExcludeCodeLength` and `ExcludeCodeConcat` state what it keeps |
| CountrySelector.Displayed | app/component/CountrySelector.tsx:140-141 | the countries offered for a selected country; `DisplayedExcludesSelected` states which |
| CountrySelector.ExcludeCodeLength | app/component/CountrySelector.tsx:140-141 | the filter removes exactly the entries carrying the selected code |
| CountrySelector.CountDistinct | app/component/CountrySelector.tsx:13-17 | with distinct codes, a code occurs once if some entry has it, else never |
| CountrySelector.ExcludeCodeConcat | app/component/CountrySelector.tsx:140-141 | the filter works piecewise over a concatenation, so it keeps the list order |
| CountrySelector.DisplayedExcludesSelected | app/component/CountrySelector.tsx:140-141 | the displayed list never holds the selected code and holds every other country; for a selected country from the list, it is the other two in list order; for any other code, all three |
| CountrySelector.TargetsFor | app/component/CountrySelector.tsx:80-108 | open targets are overlay opacity 1, content opacity 1 and y 0; closed targets are 0, 0 and y -10 |
| CountrySelector.MountEffect | app/component/CountrySelector.tsx:41-50 | the baseline is set and the timer scheduled iff both elements are attached; it never animates and leaves the other two refs alone |
| CountrySelector.TimerFires | app/component/CountrySelector.tsx:46-48 | afterwards no timer is pending, the component is mounted iff it was or a timer was pending, and `isFirstRender` is unchanged |
| CountrySelector.OpenEffect | app/component/CountrySelector.tsx:61-109 | the `isOpen` effect never touches `isMounted` or the timer, never sets `isFirstRender` back, and animates only when mounted, towards the targets for `isOpen` |
| CountrySelector.FirstRunNeverAnimates | app/component/CountrySelector.tsx:65-73 | the first run of the `isOpen` effect does not animate, clears `isFirstRender`, and resets the closed baseline iff closed |
| CountrySelector.AnimatesOnlyWhenReady | app/component/CountrySelector.tsx:61-108 | the effect animates iff both elements are attached, the first run is past and the component is mounted, towards the targets for `isOpen` |
| CountrySelector.MountedOnlyAfterMountAndTimer | app/component/CountrySelector.tsx:41-50 | the mounted flag is set only once the timer has fired after a mount with both elements attached; a timer is pending only after such a mount |
| CountrySelector.NoAnimationBeforeMounted | app/component/CountrySelector.tsx:41-78 | as long as the timer has not fired after an attached mount, no `isOpen` change animates |
| CountrySelector.HandleCountrySelect | app/component/CountrySelector.tsx:111-114 | selecting a country calls `onSelectCountry(country)` and then `onClose()` |
| CountrySelector.StylesFollowIsOpen | app/component/CountrySelector.tsx:122-133 | overlay pointer events are "auto" and it is visible, and the dropdown is visible, iff `isOpen` |
| CountrySelector.OverlayStyleFor | app/component/CountrySelector.tsx:122-125 | the backdrop's pointer events and visibility from `isOpen`; `StylesFollowIsOpen` states both directions |
| CountrySelector.ContainerVisibility | app/component/CountrySelector.tsx:133 | the dropdown's visibility from `isOpen`; `StylesFollowIsOpen` states both directions |
| CountrySelector.OverlayClick | app/component/CountrySelector.tsx:119-127 | a click on the backdrop calls `onClose` exactly when open, the only time the backdrop takes pointer events, and calls nothing otherwise |
| CountrySelector.Selector.constructor | app/component/CountrySelector.tsx:37-38 | `isFirstRender` starts true and `isMounted` false |
| CountrySelector.Selector.OnMount | app/component/CountrySelector.tsx:41-50 | the mount effect sets the closed baseline and schedules the timer iff both elements are attached |
| CountrySelector.Selector.OnTimer | app/component/CountrySelector.tsx:46-48 | the timer marks the component mounted |
| CountrySelector.Selector.OnIsOpenChange | app/component/CountrySelector.tsx:61-109 | the `isOpen` effect updates the gate and returns the action the gate allows |
| CountrySelector.Selector.OnCountryClick | app/component/CountrySelector.tsx:111-114 | a click on a country appends select-then-close to the calls made and leaves the gate unchanged |
| CountrySelector.Selector.OnOverlayClick | app/component/CountrySelector.tsx:119-127 | a click on the backdrop appends its calls to the calls made and leaves the gate unchanged |
| ImageContainer.SizeClasses | app/component/ImageContainer.tsx:46 | the default size classes are used iff there is no override, otherwise the empty string |
| ImageContainer.Includes | app/component/ImageContainer.tsx:45 | `s.includes(t)`: t occurs somewhere in s; `OverrideIsSubstringMatch` shows its effect |
| ImageContainer.HasSizeOverride | app/component/ImageContainer.tsx:45 | an override when the className contains "w-" or "h-", or a truthy width or height; `WidthAloneOverridesWithoutStyle` and `OverrideIsSubstringMatch` state cases |
| ImageContainer.ContainerStyle | app/component/ImageContainer.tsx:47 | inline width and height are set iff both are given, and then to those values |
| ImageContainer.WidthAloneOverridesWithoutStyle | app/component/ImageContainer.tsx:45-47 | a width alone causes an override but sets no inline style |
| ImageContainer.OverrideIsSubstringMatch | app/component/ImageContainer.tsx:45 | "w-24" overrides and "rounded" does not; being a substring test, "shadow-md" overrides too |
| ImageContainer.ClassStringShape | app/component/ImageContainer.tsx:52 | the class string starts with "inline-block ", ends with the caller's className, and carries the default size classes iff there is no override |
| ImageContainer.ClassString | app/component/ImageContainer.tsx:52 | the container's class string; `ClassStringShape` states its parts |
| LoadingProvider.UseLoading | app/component/LoadingProvider.tsx:12-18 | returns the provider's value when there is one and fails with the provider error otherwise |
| LoadingProvider.BodyStyleFor | app/component/LoadingProvider.tsx:33-40 | while loading the body has overflow "hidden" and the dark background; otherwise both are "" |
| LoadingProvider.BodyLockedIffLoading | app/component/LoadingProvider.tsx:34-40 | body scrolling is locked iff loading |
| LoadingProvider.ContentStyleFor | app/component/LoadingProvider.tsx:52-56 | the content has opacity 0 and is hidden iff loading, opacity 1 and visible iff not |
| LoadingProvider.ScreenXorContent | app/component/LoadingProvider.tsx:50-56 | the loading screen is rendered iff the content is hidden |
| LoadingProvider.LoadingScreenRendered | app/component/LoadingProvider.tsx:50 | the loading screen is rendered while loading; `ScreenXorContent` ties it to the content style |
| LoadingProvider.Complete | app/component/LoadingProvider.tsx:28-30 | the completion callback sets the flag false whatever it was; `FlagMonotone` states that it never reverts |
| LoadingProvider.FlagMonotone | app/component/LoadingProvider.tsx:25-30 | the flag is true before the first completion and false after any completion; it never reverts |
| LoadingProvider.Provider.constructor | app/component/LoadingProvider.tsx:25 | `isLoading` starts true and the body is locked |
| LoadingProvider.Provider.HandleLoadingComplete | app/component/LoadingProvider.tsx:28-30 | `isLoading` becomes false, the body style follows, and a repeated call changes nothing |
| LoadingProvider.Provider.Unmount | app/component/LoadingProvider.tsx:42-45 | the cleanup resets both body properties to "" |
| LoadingProvider.Provider.Context | app/component/LoadingProvider.tsx:49 | the context value carries the provider's `isLoading`, and `useLoading` returns it unchanged to a consumer inside the provider |
| ProductSection.AnchorCentredBelow | app/component/ProductSection.tsx:50-54 | the anchor is on the marker's vertical centre line, between its edges, 20 pixels below its bottom |
| ProductSection.Anchor | app/component/ProductSection.tsx:50-54 | the popover anchor of a marker rectangle; `AnchorCentredBelow` states where it lies |
| ProductSection.Positions | app/component/ProductSection.tsx:46-65 | the positions map has an entry for a hotspot iff its marker is attached, holding that marker's anchor |
| ProductSection.UpdatePositions | app/component/ProductSection.tsx:46-65 | building the map entry by entry gives exactly the positions map |
| ProductSection.HoveredInRange | app/component/ProductSection.tsx:181-198 | from null, the hovered hotspot is none, 1 or 2; it is the last marker entered, or none after a leave |
| ProductSection.HoverStep | app/component/ProductSection.tsx:185-198 | entering marker k selects hotspot k and leaving any marker clears the selection; `HoveredInRange` states the result of any run |
| ProductSection.AtMostOnePopover | app/component/ProductSection.tsx:206-223 | at most one popover is visible; popover k is rendered iff its marker is attached; a rendered popover sits at its anchor |
| ProductSection.IsVisible | app/component/ProductSection.tsx:212 | popover k is visible when the hovered hotspot is k; `AtMostOnePopover` states that at most one is |
| ProductSection.PopoverRendered | app/component/ProductSection.tsx:207-221 | popover k is rendered when the positions map has entry k; `AtMostOnePopover` ties this to the marker being attached |
| ProductSection.ContainerTargets | app/component/ProductSection.tsx:79-138 | every attached container is tweened; the hovered one from hidden to shown (opacity 1, y 0, scale 1), every other towards hidden (opacity 0, y -10, scale 0.95) |
| ProductSection.ContainerTween | app/component/ProductSection.tsx:79-138 | the tween the hover effect starts on container k; `ContainerTargets` states its targets |
| ProductSection.Section.constructor | app/component/ProductSection.tsx:9-10 | no hotspot is hovered and there are no positions |
| ProductSection.Section.OnMouseEnter | app/component/ProductSection.tsx:185 | entering a marker selects its hotspot |
| ProductSection.Section.OnMouseLeave | app/component/ProductSection.tsx:186 | leaving a marker clears the selection |
| ProductSection.Section.Remeasure | app/component/ProductSection.tsx:65 | the stored positions become the map computed from the new rectangles |

## Left out

- Animation engine: durations, eases, staggers, blur and the interpolation of tweens are not modelled. A tween is reduced to its target values, and to its delay where a property depends on it.
- Scroll and viewport geometry: the ScrollTrigger thresholds (`top 80%`) and the scroll and resize listeners are not modelled. The trigger's `onEnter` is an input event, and so is a re-measurement.
- DOM measurement: `getBoundingClientRect` results are inputs. So are the presence of DOM references and the registry of scroll triggers.
- ProductSection.AnchorCentredBelow: the anchor uses exact real arithmetic, because rounding of JavaScript floating-point numbers is not modelled.
- ProductSection: the `scrollY` state and its window listener only re-run `updatePositions`, so they are modelled as `Remeasure`. The mount animation of the product image is animation only.
- HeadingTextAnimation.SplitChars: JavaScript splits strings into UTF-16 code units, while a Dafny `char` is a Unicode scalar value. A character outside the Basic Multilingual Plane is two units in the component and one here.
- HeadingTextAnimation.KillContainerTriggers: the container reference is an input, `None` for null. React detaches refs before an unmounting component's effect cleanups run, so at unmount the reference is null and the loop at lines 64-68 kills no trigger (`DetachedKillsNothing`); whether `animation.kill()` removes the tween's own trigger is up to the animation library and is not modelled. `animation.kill()` on the component's own tween is not modelled.
- CountrySelector: the parent's `onSelectCountry` and `onClose` are not part of the repository. Their invocations are recorded in a call log. The effect that copies the button's `rect.left` into the container style is DOM plumbing. The `setTimeout` is an explicit timer event.
- ProductCard: each click is handled against the state of the previous render, as React does for separate discrete events. Batching of several clicks within one render is not modelled. The placeholder image markup is static.
- BestSelling: the `hoverImage` field of the catalogue entries is not part of the card's `Product` type and is never read. The product card's console logging callbacks are I/O.
- LoadingProvider: the loading screen's own timeline is not modelled; its `onComplete` call is the event that clears the flag.
- Hero: image rendering through `next/image` is not modelled.
