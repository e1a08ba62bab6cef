/** The cart strip of the style-selection screen
    (components/stylesSelection/selectedStyles.tsx): for every order, one card per
    style already chosen, then one placeholder card per style the order's package
    still allows, each captioned "Select N [more] style[s]". */
module SelectedStyles {
  import opened Wrappers
  import opened Text
  import opened Seqs

  /** The package bought for an order; only its style allowance matters here. */
  datatype Package = Package(stylesCount: int)

  /** One order of the cart: its package, if any, and the ids of its chosen styles. */
  datatype Order = Order(id: string, package: Option<Package>, styles: seq<string>)

  /** A card of the strip: a chosen style, or the `index`-th placeholder of an order. */
  datatype Card = StyleCard(styleId: string) | PlaceholderCard(index: nat, caption: string)

  /** How many more styles the order's package allows (negative when over-filled). */
  function Remaining(o: Order): int
    requires o.package.Some?
  {
    o.package.value.stylesCount - |o.styles|
  }

  /** The caption of a placeholder: "Select ", the remaining count, a space, "more"
      when some style is already chosen, a space, "style", and "s" when more than one
      remains. The two spaces stay even when "more" is absent. */
  function PlaceholderCaption(remaining: nat, selected: nat): (r: string)
    ensures |r| >= 13 && r[..7] == "Select "
    ensures r[|r| - 1] == 's' <==> remaining > 1
    ensures remaining > 1 ==> r[|r| - 6..] == "styles"
    ensures remaining <= 1 ==> r[|r| - 5..] == "style"
    ensures var digits := NatToString(remaining);
      7 + |digits| <= |r| && r[7..7 + |digits|] == digits
  {
    var digits := NatToString(remaining);
    var tail := " " + (if selected > 0 then "more" else "") + " " + "style" + (if remaining > 1 then "s" else "");
    var word := "style" + (if remaining > 1 then "s" else "");
    var r := "Select " + digits + tail;
    assert r[7..7 + |digits|] == digits;
    assert tail[|tail| - |word|..] == word;
    assert r[|r| - |word|..] == word;
    r
  }

  /** The count written in a caption reads back as the remaining count. */
  lemma CaptionCountReadsBack(remaining: nat, selected: nat)
    ensures var digits := NatToString(remaining);
      ParseDigits(PlaceholderCaption(remaining, selected)[7..7 + |digits|]) == remaining
  {
    NatToStringRoundTrip(remaining);
  }

  /** The caption says "more" exactly when some style of the order is already chosen. */
  lemma CaptionSaysMoreIffSelected(remaining: nat, selected: nat)
    ensures Contains(PlaceholderCaption(remaining, selected), "more") <==> selected > 0
  {
    var digits := NatToString(remaining);
    var plural := if remaining > 1 then "s" else "";
    if selected > 0 {
      ContainsMiddle("Select " + digits + " ", "more", " " + "style" + plural);
      assert PlaceholderCaption(remaining, selected)
        == ("Select " + digits + " ") + "more" + (" " + "style" + plural);
    } else {
      var r := PlaceholderCaption(remaining, selected);
      assert r == "Select " + digits + "  style" + plural;
      forall i | 0 <= i < |r|
        ensures r[i] != 'm'
      {
        if 7 <= i < 7 + |digits| {
          assert r[i] == digits[i - 7];
          assert IsDigit(digits[i - 7]);
        }
      }
      MissingCharExcludes(r, "more", 0);
    }
  }

  /** `renderPlaceholders`: nothing without a package or when nothing remains;
      otherwise `Remaining` placeholders, numbered from 0, all with the same caption. */
  function Placeholders(o: Order): (r: seq<Card>)
    ensures o.package.None? ==> r == []
    ensures o.package.Some? && Remaining(o) <= 0 ==> r == []
    ensures o.package.Some? && Remaining(o) > 0 ==> |r| == Remaining(o)
    ensures forall i :: 0 <= i < |r| ==> r[i].PlaceholderCard? && r[i].index == i
    ensures forall i :: 0 <= i < |r| ==> r[i].caption == PlaceholderCaption(|r|, |o.styles|)
  {
    if o.package.None? then []
    else
      var remaining := Remaining(o);
      if remaining <= 0 then []
      else seq(remaining, i requires 0 <= i < remaining => PlaceholderCard(i, PlaceholderCaption(remaining, |o.styles|)))
  }

  /** The cards of one order: its chosen styles, in order, then its placeholders. */
  function OrderCards(o: Order): (r: seq<Card>)
    ensures |r| == |o.styles| + |Placeholders(o)|
    ensures forall i :: 0 <= i < |o.styles| ==> r[i] == StyleCard(o.styles[i])
    ensures forall i :: |o.styles| <= i < |r| ==> r[i].PlaceholderCard?
    ensures r[|o.styles|..] == Placeholders(o)
  {
    seq(|o.styles|, i requires 0 <= i < |o.styles| => StyleCard(o.styles[i])) + Placeholders(o)
  }

  /** With a package, an order shows as many cards as the larger of its chosen
      styles and its package's allowance. */
  lemma CardsFillPackage(o: Order)
    requires o.package.Some?
    ensures |OrderCards(o)| == if |o.styles| >= o.package.value.stylesCount then |o.styles| else o.package.value.stylesCount
  {
  }

  /** No chosen style comes after a placeholder of the same order. */
  lemma ChosenBeforePlaceholders(o: Order, i: int, j: int)
    requires 0 <= i < j < |OrderCards(o)| && OrderCards(o)[j].StyleCard?
    ensures OrderCards(o)[i].StyleCard?
  {
  }

  /** The whole strip: every order's cards, orders in input order. */
  function Render(orders: seq<Order>): (r: seq<Card>)
    ensures orders == [] ==> r == []
    ensures orders != [] ==> |OrderCards(orders[0])| <= |r| && r[..|OrderCards(orders[0])|] == OrderCards(orders[0])
    ensures |r| == CardCount(orders)
    decreases |orders|
  {
    if orders == [] then [] else OrderCards(orders[0]) + Render(orders[1..])
  }

  /** Total number of cards over the orders. */
  function CardCount(orders: seq<Order>): nat
    decreases |orders|
  {
    if orders == [] then 0 else |OrderCards(orders[0])| + CardCount(orders[1..])
  }

  /** Rendering two lists of orders one after the other is rendering them joined. */
  lemma {:induction false} RenderAppend(a: seq<Order>, b: seq<Order>)
    ensures Render(a + b) == Render(a) + Render(b)
    decreases |a|
  {
    if a == [] {
      assert a + b == b;
    } else {
      assert (a + b)[0] == a[0];
      assert (a + b)[1..] == a[1..] + b;
      RenderAppend(a[1..], b);
    }
  }

  /** The strip holds exactly the cards of every order, and an order's cards start
      right after those of the orders before it. */
  lemma {:induction false} RenderKeepsOrderCards(orders: seq<Order>, k: int)
    requires 0 <= k < |orders|
    ensures |Render(orders)| == CardCount(orders)
    ensures var start := |Render(orders[..k])|;
      start + |OrderCards(orders[k])| <= |Render(orders)|
      && Render(orders)[start..start + |OrderCards(orders[k])|] == OrderCards(orders[k])
    decreases |orders|
  {
    RenderSplit(orders, k);
    MiddleSlice(Render(orders[..k]), OrderCards(orders[k]), Render(orders[k + 1..]));
  }

  /** The strip is the orders before the k-th, then the k-th order's cards, then the
      orders after it. */
  lemma RenderSplit(orders: seq<Order>, k: int)
    requires 0 <= k < |orders|
    ensures Render(orders) == Render(orders[..k]) + OrderCards(orders[k]) + Render(orders[k + 1..])
  {
    var before, o, after := orders[..k], orders[k], orders[k + 1..];
    calc {
      Render(orders);
      { SplitAt(orders, k); }
      Render((before + [o]) + after);
      { RenderAppend(before + [o], after); }
      Render(before + [o]) + Render(after);
      { RenderAppend(before, [o]); RenderOne(o); }
      Render(before) + OrderCards(o) + Render(after);
    }
  }

  /** A single order renders as its own cards. */
  lemma RenderOne(o: Order)
    ensures Render([o]) == OrderCards(o)
  {
    assert [o][1..] == [];
  }
}
