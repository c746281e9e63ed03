/** A product card: a favourite toggle whose state the card owns, callbacks
    that report the product's id to the parent, and a discount badge. */
module ProductCard {
  import opened Wrappers

  /** A catalogue entry as the card reads it; absent optional fields are `None`. */
  datatype Product = Product(id: int, name: string, price: string, discount: Option<string>, image: Option<string>)

  /** What the parent passes in: the product, which callbacks are present,
      and the initial favourite flag (`isFavorite`, default false). */
  datatype CardProps = CardProps(product: Product, hasOnFavoriteClick: bool, hasOnCardClick: bool, isFavorite: bool)

  /** One invocation of a parent callback, with the id it was given. */
  datatype Report = FavoriteReported(id: int) | CardReported(id: int)

  /** The card's state: the favourite flag and the callback invocations so far. */
  datatype CardState = CardState(favorited: bool, reports: seq<Report>)

  /** Where a click lands: the heart button sits inside the card body. */
  datatype ClickTarget = HeartButton | CardBody


  /** The state right after the card is first rendered. */
  function InitialState(props: CardProps): (st: CardState)
    ensures st.favorited == props.isFavorite && st.reports == []
  {
    CardState(props.isFavorite, [])
  }

  /** `handleFavoriteClick`: flip the flag and report the id when the callback
      is present. It stops propagation, so the card's own handler does not run. */
  function FavoriteClick(props: CardProps, st: CardState): CardState {
    CardState(!st.favorited,
              st.reports + if props.hasOnFavoriteClick then [FavoriteReported(props.product.id)] else [])
  }

  /** `handleCardClick`: report the id when the callback is present, else nothing. */
  function CardClick(props: CardProps, st: CardState): CardState {
    if props.hasOnCardClick then CardState(st.favorited, st.reports + [CardReported(props.product.id)]) else st
  }

  /** A click dispatched to its target. A click on the heart reaches only the
      heart's handler; a click elsewhere on the card reaches the card's. */
  function Click(props: CardProps, st: CardState, target: ClickTarget): CardState {
    match target
    case HeartButton => FavoriteClick(props, st)
    case CardBody => CardClick(props, st)
  }

  /** A heart click negates the flag, reports the product's id to the favourite
      callback exactly once when it is present and not at all otherwise, and
      never reaches the card-click callback. */
  lemma FavoriteClickEffect(props: CardProps, st: CardState)
    ensures Click(props, st, HeartButton).favorited == !st.favorited
    ensures var r := Click(props, st, HeartButton).reports;
      && r[..|st.reports|] == st.reports
      && (props.hasOnFavoriteClick ==> r[|st.reports|..] == [FavoriteReported(props.product.id)])
      && (!props.hasOnFavoriteClick ==> r == st.reports)
    ensures forall j :: |st.reports| <= j < |Click(props, st, HeartButton).reports| ==>
      !Click(props, st, HeartButton).reports[j].CardReported?
  {
  }

  /** Two heart clicks restore the favourite flag. */
  lemma FavoriteToggleUndoes(props: CardProps, st: CardState)
    ensures Click(props, Click(props, st, HeartButton), HeartButton).favorited == st.favorited
  {
  }

  /** The number of times the favourite flag is flipped by a click sequence. */
  function HeartClicks(clicks: seq<ClickTarget>): nat {
    if clicks == [] then 0 else HeartClicks(clicks[..|clicks| - 1]) + if clicks[|clicks| - 1] == HeartButton then 1 else 0
  }

  /** The state after a sequence of clicks, applied left to right. */
  function Clicks(props: CardProps, st: CardState, clicks: seq<ClickTarget>): CardState {
    if clicks == [] then st else Click(props, Clicks(props, st, clicks[..|clicks| - 1]), clicks[|clicks| - 1])
  }

  /** After any clicks the flag equals the initial one exactly when the heart
      was clicked an even number of times; card-body clicks never change it. */
  lemma {:induction false} FavoritedParity(props: CardProps, st: CardState, clicks: seq<ClickTarget>)
    ensures Clicks(props, st, clicks).favorited == (st.favorited == (HeartClicks(clicks) % 2 == 0))
  {
    if clicks != [] {
      FavoritedParity(props, st, clicks[..|clicks| - 1]);
    }
  }

  /** A card-body click reports the id once when the callback is present and
      leaves the state unchanged otherwise; it never touches the flag. */
  lemma CardClickEffect(props: CardProps, st: CardState)
    ensures Click(props, st, CardBody).favorited == st.favorited
    ensures props.hasOnCardClick ==> Click(props, st, CardBody).reports == st.reports + [CardReported(props.product.id)]
    ensures !props.hasOnCardClick ==> Click(props, st, CardBody) == st
  {
  }

  /** The badge's text when the badge is rendered (`product.discount && ...`);
      an absent or empty discount renders nothing. */
  function DiscountBadge(p: Product): (badge: Option<string>)
    ensures badge.Some? <==> Truthy(p.discount)
    ensures badge.Some? ==> badge.value == p.discount.value && badge.value != ""
  {
    match p.discount
    case Some(d) => if d != "" then Some(d) else None
    case None => None
  }

  /** The heart icon's fill: solid when favourited, outline otherwise. */
  function HeartFill(favorited: bool): (fill: string)
    ensures fill == "currentColor" <==> favorited
    ensures fill == "none" <==> !favorited
  {
    if favorited then "currentColor" else "none"
  }

  /** The card component: its props and the state it owns. */
  class Card {
    const props: CardProps
    var favorited: bool
    /** The parent callbacks invoked so far, in order. */
    var reports: seq<Report>

    /** The card's state as a value. */
    function State(): CardState
      reads this
    {
      CardState(favorited, reports)
    }

    constructor (props: CardProps)
      ensures this.props == props
      ensures State() == InitialState(props)
    {
      this.props := props;
      favorited := props.isFavorite;
      reports := [];
    }

    method HandleFavoriteClick()
      modifies this
      ensures State() == Click(props, old(State()), HeartButton)
    {
      favorited := !favorited;
      if props.hasOnFavoriteClick {
        reports := reports + [FavoriteReported(props.product.id)];
      }
    }

    method HandleCardClick()
      modifies this
      ensures State() == Click(props, old(State()), CardBody)
    {
      if props.hasOnCardClick {
        reports := reports + [CardReported(props.product.id)];
      }
    }
  }
}
