/**
 * The mobile view of the home page's services section: a carousel of domain
 * cards that rotates on a timer, follows swipes and has one indicator per card.
 * The desktop orbit animation is not part of this model.
 */
module ServicesPreview {
  import opened Wrappers
  import opened I18n
  import Circular

  /** A swipe must move further than this many pixels to change the card. */
  const SwipeThreshold: int := 40

  /** The widest window, in pixels, that shows the mobile carousel. */
  const MobileMaxWidth: int := 768

  /** safeTranslate: the translation of `key` when `t` exists, does not throw
      and returns a non-empty string other than the key; `fallback` otherwise. */
  function SafeTranslate(t: Option<string -> Reply>, key: string, fallback: string): (r: string)
    ensures t.Some? && Usable(t.value(key), key) ==> r == t.value(key).text
    ensures t.None? || !Usable(t.value(key), key) ==> r == fallback
  {
    match t
    case None => fallback
    case Some(lookup) =>
      match lookup(key)
      case Text(s) => if s != "" && s != key then s else fallback
      case Missing => fallback
      case Threw => fallback
  }

  /** relDiff: the signed distance from the current card to card `index`,
      taken the short way round a ring of `n` cards. JavaScript compares with
      the real number n / 2 (and -n / 2), written here without division. */
  function RelDiff(index: int, current: int, n: nat): (d: int)
    ensures index == current ==> d == 0
    ensures d == index - current || d == index - current - n || d == index - current + n
    ensures 0 <= index < n && 0 <= current < n ==> 0 <= n + 2 * d && 2 * d <= n
    ensures 0 <= index < n && 0 <= current < n ==> (d == 0 <==> index == current)
  {
    var raw := index - current;
    var raw' := if 2 * raw > n then raw - n else raw;
    if 2 * raw' + n < 0 then raw' + n else raw'
  }

  /** The visual state of a card. */
  datatype CardState = Active | Side | Hidden

  /** A card's state from its distance to the current card. */
  function Classify(d: int): (s: CardState)
    ensures s == Active <==> d == 0
    ensures s == Side <==> d == 1 || d == -1
    ensures s == Hidden <==> d != 0 && d != 1 && d != -1
  {
    if d == 0 then Active
    else if d == 1 || d == -1 then Side
    else Hidden
  }

  /** The integer style values of one card (scale and opacity are fractional
      and not part of this model). */
  datatype CardStyle = CardStyle(
    state: CardState,
    translateX: int,
    rotateY: int,
    blur: int,
    zIndex: int,
    colorIndex: int)

  /** The style of card `idx` when card `current` is in front. */
  function CardStyleAt(idx: nat, current: int, n: nat): (c: CardStyle)
    ensures c.state == Classify(RelDiff(idx, current, n))
    ensures c.translateX == 140 * RelDiff(idx, current, n)
    ensures c.rotateY == 12 * RelDiff(idx, current, n)
    ensures c.state == Active ==> c.zIndex == 3 && c.blur == 0
    ensures c.state == Side ==> c.zIndex == 2 && c.blur == 2
    ensures c.state == Hidden ==> c.zIndex == 0 && c.blur == 6
    ensures 1 <= c.colorIndex <= 10 && (c.colorIndex - 1 - idx) % 10 == 0
  {
    var d := RelDiff(idx, current, n);
    var state := Classify(d);
    CardStyle(
      state,
      d * 140,
      d * 12,
      if state == Side then 2 else if state == Hidden then 6 else 0,
      if state == Active then 3 else if state == Side then 2 else 0,
      idx % 10 + 1)
  }

  /** The cards of a carousel of `n` domains, in domain order. */
  function Cards(current: int, n: nat): (cards: seq<CardStyle>)
    ensures |cards| == n
    ensures forall idx | 0 <= idx < n :: cards[idx] == CardStyleAt(idx, current, n)
  {
    seq(n, idx requires 0 <= idx < n => CardStyleAt(idx, current, n))
  }

  /** Exactly one card is active: the current one, which is centred and unrotated. */
  lemma ExactlyOneActive(current: int, n: nat)
    requires 0 <= current < n
    ensures forall idx | 0 <= idx < n :: Cards(current, n)[idx].state == Active <==> idx == current
    ensures Cards(current, n)[current].translateX == 0 && Cards(current, n)[current].rotateY == 0
  {
  }

  /** The active card is drawn above every other card, and side cards above hidden ones. */
  lemma ActiveOnTop(current: int, n: nat)
    requires 0 <= current < n
    ensures forall idx | 0 <= idx < n && idx != current ::
      Cards(current, n)[idx].zIndex < Cards(current, n)[current].zIndex
    ensures forall i, j | 0 <= i < n && 0 <= j < n ::
      Cards(current, n)[i].state == Side && Cards(current, n)[j].state == Hidden ==>
      Cards(current, n)[j].zIndex < Cards(current, n)[i].zIndex
  {
    ExactlyOneActive(current, n);
  }

  /** The side cards are exactly the neighbours of the current card on the ring. */
  lemma SideIffNeighbour(idx: int, current: int, n: int)
    requires 0 <= idx < n && 0 <= current < n
    ensures Classify(RelDiff(idx, current, n)) == Side <==>
      idx != current && (idx == Circular.Next(current, n) || idx == Circular.Prev(current, n))
  {
    Circular.NextStep(current, n);
    Circular.PrevStep(current, n);
  }

  /** With three or more cards, the card drawn one slot to the right is the one
      Next brings to the front, and the card one slot to the left the one Prev does. */
  lemma NeighbourDirections(idx: int, current: int, n: int)
    requires 0 <= idx < n && 0 <= current < n && n >= 3
    ensures RelDiff(idx, current, n) == 1 <==> idx == Circular.Next(current, n)
    ensures RelDiff(idx, current, n) == -1 <==> idx == Circular.Prev(current, n)
  {
    Circular.NextStep(current, n);
    Circular.PrevStep(current, n);
  }

  /** The indicator buttons: indicator i is active exactly when i is current. */
  function Indicators(current: int, n: nat): (active: seq<bool>)
    ensures |active| == n
    ensures forall i | 0 <= i < n :: active[i] <==> i == current
  {
    seq(n, i requires 0 <= i < n => i == current)
  }

  /** The active indicator and the active card are always the same one. */
  lemma IndicatorMatchesActiveCard(current: int, n: nat)
    requires 0 <= current < n
    ensures forall i | 0 <= i < n :: Indicators(current, n)[i] <==> Cards(current, n)[i].state == Active
  {
    ExactlyOneActive(current, n);
  }

  /** Where onTouchEnd moves the carousel for a drag of `delta` pixels:
      right past the threshold goes back a card, left past it goes forward. */
  function SwipeTarget(delta: int, i: int, n: int): (r: int)
    requires n > 0 && 0 <= i < n
    ensures 0 <= r < n
    ensures delta > SwipeThreshold ==> r == Circular.Prev(i, n)
    ensures delta < -SwipeThreshold ==> r == Circular.Next(i, n)
    ensures -SwipeThreshold <= delta <= SwipeThreshold ==> r == i
  {
    if delta > SwipeThreshold then Circular.Prev(i, n)
    else if delta < -SwipeThreshold then Circular.Next(i, n)
    else i
  }

  /** A swipe one way followed by a swipe the other way returns to the same card. */
  lemma SwipeBackReturns(i: int, n: int, there: int, back: int)
    requires n > 0 && 0 <= i < n
    requires (there > SwipeThreshold && back < -SwipeThreshold) || (there < -SwipeThreshold && back > SwipeThreshold)
    ensures SwipeTarget(back, SwipeTarget(there, i, n), n) == i
  {
    Circular.RoundTrip(i, n);
  }

  /** The component's state in mobile mode. */
  class Carousel {
    /** The number of domains (domainsData.domains.length). */
    const count: int
    var currentIndex: int
    var isMobile: bool
    var touchStartX: Option<int>
    var touchDelta: int

    /** The carousel always shows one of its cards. */
    ghost predicate Valid()
      reads this
    {
      count > 0 && 0 <= currentIndex < count
    }

    /** The first render; `width` is the window's width, absent when there is no window. */
    constructor (count: int, width: Option<int>)
      requires count > 0
      ensures Valid() && this.count == count && currentIndex == 0
      ensures isMobile == (width.Some? && width.value <= MobileMaxWidth)
      ensures touchStartX == None && touchDelta == 0
    {
      this.count := count;
      currentIndex := 0;
      isMobile := width.Some? && width.value <= MobileMaxWidth;
      touchStartX := None;
      touchDelta := 0;
    }

    /** The window resize listener. */
    method Resize(width: int)
      modifies this`isMobile
      ensures isMobile == (width <= MobileMaxWidth)
    {
      isMobile := width <= MobileMaxWidth;
    }

    /** One firing of the auto-rotate interval, which runs only in mobile mode. */
    method Tick()
      requires Valid()
      modifies this`currentIndex
      ensures Valid()
      ensures currentIndex == if isMobile then Circular.Next(old(currentIndex), count) else old(currentIndex)
    {
      if !isMobile {
        return;
      }
      currentIndex := Circular.Next(currentIndex, count);
    }

    /** A click on indicator `i`. */
    method IndicatorClick(i: int)
      requires Valid() && 0 <= i < count
      modifies this`currentIndex
      ensures Valid() && currentIndex == i
    {
      currentIndex := i;
    }

    /** onTouchStart at horizontal position `x`. */
    method TouchStart(x: int)
      modifies this`touchStartX, this`touchDelta
      ensures touchStartX == Some(x) && touchDelta == 0
    {
      touchStartX := Some(x);
      touchDelta := 0;
    }

    /** onTouchMove to horizontal position `x`: ignored without a touch start. */
    method TouchMove(x: int)
      modifies this`touchDelta
      ensures touchStartX.None? ==> touchDelta == old(touchDelta)
      ensures touchStartX.Some? ==> touchDelta == x - touchStartX.value
    {
      if touchStartX.None? {
        return;
      }
      touchDelta := x - touchStartX.value;
    }

    /** onTouchEnd: move by the recorded drag, then forget the gesture. */
    method TouchEnd()
      requires Valid()
      modifies this`currentIndex, this`touchStartX, this`touchDelta
      ensures Valid()
      ensures currentIndex == SwipeTarget(old(touchDelta), old(currentIndex), count)
      ensures touchStartX == None && touchDelta == 0
    {
      if touchDelta > SwipeThreshold {
        currentIndex := Circular.Prev(currentIndex, count);
      } else if touchDelta < -SwipeThreshold {
        currentIndex := Circular.Next(currentIndex, count);
      }
      touchStartX := None;
      touchDelta := 0;
    }
  }

  /** A drag 100 pixels to the left followed by one 100 pixels to the right
      brings the carousel back to the card it showed before. */
  method SwipeScenario(count: int, width: int, x: int) returns (before: int, after: int)
    requires count > 0
    ensures 0 <= before < count && after == before
  {
    var carousel := new Carousel(count, Some(width));
    carousel.Tick();
    before := carousel.currentIndex;
    carousel.TouchStart(x);
    carousel.TouchMove(x - 100);
    carousel.TouchEnd();
    carousel.TouchStart(x);
    carousel.TouchMove(x + 100);
    carousel.TouchEnd();
    Circular.RoundTrip(before, count);
    after := carousel.currentIndex;
  }
}
