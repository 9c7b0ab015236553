/** The HTML body of a price alert (`getEmailTemplate`): fixed markup with
    four slots, filled with the link target, the item label, the old price
    and the new price, each inserted verbatim (no escaping, no formatting).

    The facts about the output are proved once for any `Layout` (five fixed
    strings around four slots) and then read off for the alert's layout, so
    nothing depends on what the styling markup between them spells. */
module EmailTemplate {

  // The styling markup of the template (the `html` and `head` elements,
  // CSS, Outlook conditional comments, layout tables and `div` attributes)
  // is fixed text that no property below depends on; it is kept as fixed
  // strings whose spelling the model leaves open.

  /** From after the doctype to the opening of the greeting block. */
  const HeadMarkup: string
  /** From the end of the greeting to the paragraph holding the item link. */
  const GreetingToLink: string
  /** From the end of the link paragraph to the "Old price:" label. */
  const LinkToOldLabel: string
  /** From the "Old price:" label to the old-price slot. */
  const OldLabelToSlot: string
  /** From the old-price slot to the "New price:" label. */
  const OldSlotToNewLabel: string
  /** From the "New price:" label to the new-price slot. */
  const NewLabelToSlot: string
  /** From the new-price slot to the sign-off. */
  const NewSlotToSignOff: string
  /** From the sign-off to the closing `html` tag. */
  const SignOffToEnd: string

  // The text a reader of the alert sees, and the tags around the slots,
  // exactly as the template spells them.
  const DocType := "<!doctype html>"
  const Greeting := "Hi \U{1F44B}"
  const LinkIntro := "Price just changed for "
  const HrefOpen := "<a href=\""
  const HrefClose := "\">"
  const AnchorClose := "</a>!"
  const OldPriceLabel := "Old price:"
  const NewPriceLabel := "New price:"
  const SignOff := "Have a good day \U{1F418}\U{1F4A8}"
  const DocClose := "</html>\n"

  /** The fixed text before the `url` slot, between consecutive slots, and
      after the `newPrice` slot. */
  datatype Layout = Layout(
    beforeUrl: string,
    urlToItem: string,
    itemToOldPrice: string,
    oldPriceToNewPrice: string,
    afterNewPrice: string)
  {
    function FixedLength(): nat {
      |beforeUrl| + |urlToItem| + |itemToOldPrice| + |oldPriceToNewPrice| + |afterNewPrice|
    }
  }

  /** The alert's layout, read left to right off the template literal. */
  const AlertLayout := Layout(
    DocType + HeadMarkup + Greeting + GreetingToLink + LinkIntro + HrefOpen,
    HrefClose,
    AnchorClose + LinkToOldLabel + OldPriceLabel + OldLabelToSlot,
    OldSlotToNewLabel + NewPriceLabel + NewLabelToSlot,
    NewSlotToSignOff + SignOff + SignOffToEnd + DocClose)

  /** The layout's fixed text interleaved with the four slot values. */
  function Fill(k: Layout, url: string, item: string, oldPrice: string, newPrice: string): (html: string)
    ensures |html| == k.FixedLength() + |url| + |item| + |oldPrice| + |newPrice|
  {
    k.beforeUrl + url + k.urlToItem + item + k.itemToOldPrice + oldPrice + k.oldPriceToNewPrice + newPrice + k.afterNewPrice
  }

  /** `getEmailTemplate({item, url, oldPrice, newPrice})`: its only inputs
      are its four arguments. */
  function GetEmailTemplate(item: string, url: string, oldPrice: string, newPrice: string): (html: string)
    ensures |html| == AlertLayout.FixedLength() + |url| + |item| + |oldPrice| + |newPrice|
  {
    Fill(AlertLayout, url, item, oldPrice, newPrice)
  }

  /** `t` occurs in `s` starting at index `i`. */
  predicate OccursAt(s: string, t: string, i: nat) {
    i + |t| <= |s| && s[i..i + |t|] == t
  }

  /** Where each slot starts in a filled layout. */
  function UrlAt(k: Layout): nat { |k.beforeUrl| }
  function ItemAt(k: Layout, url: string): nat { UrlAt(k) + |url| + |k.urlToItem| }
  function OldPriceAt(k: Layout, url: string, item: string): nat {
    ItemAt(k, url) + |item| + |k.itemToOldPrice|
  }
  function NewPriceAt(k: Layout, url: string, item: string, oldPrice: string): nat {
    OldPriceAt(k, url, item) + |oldPrice| + |k.oldPriceToNewPrice|
  }

  /** Recovers the four slot values from a filled layout, given the lengths
      of the first three (the last one runs up to the trailing fixed text). */
  function ReadSlots(k: Layout, html: string, urlLen: nat, itemLen: nat, oldLen: nat): (slots: Option4)
  {
    var u := UrlAt(k);
    var i := u + urlLen + |k.urlToItem|;
    var o := i + itemLen + |k.itemToOldPrice|;
    var n := o + oldLen + |k.oldPriceToNewPrice|;
    if n + |k.afterNewPrice| <= |html| then
      Found(html[u..u + urlLen], html[i..i + itemLen], html[o..o + oldLen], html[n..|html| - |k.afterNewPrice|])
    else
      NotFilled
  }

  datatype Option4 = Found(url: string, item: string, oldPrice: string, newPrice: string) | NotFilled

  // ---------------------------------------------------------------------
  // Facts about sequences of characters used below.

  lemma OccursInMiddle(a: string, t: string, b: string)
    ensures OccursAt(a + t + b, t, |a|)
  {
    assert (a + t + b)[|a|..|a| + |t|] == t;
  }

  // ---------------------------------------------------------------------
  // Any layout.

  /** Each value sits at its slot's offset of a filled layout: the url, ... */
  lemma FillUrlSlot(k: Layout, url: string, item: string, oldPrice: string, newPrice: string)
    ensures OccursAt(Fill(k, url, item, oldPrice, newPrice), url, UrlAt(k))
  {
    var rest := k.urlToItem + item + k.itemToOldPrice + oldPrice + k.oldPriceToNewPrice + newPrice + k.afterNewPrice;
    assert Fill(k, url, item, oldPrice, newPrice) == k.beforeUrl + url + rest;
    OccursInMiddle(k.beforeUrl, url, rest);
  }

  /** ... the item, ... */
  lemma FillItemSlot(k: Layout, url: string, item: string, oldPrice: string, newPrice: string)
    ensures OccursAt(Fill(k, url, item, oldPrice, newPrice), item, ItemAt(k, url))
  {
    var front := k.beforeUrl + url + k.urlToItem;
    var rest := k.itemToOldPrice + oldPrice + k.oldPriceToNewPrice + newPrice + k.afterNewPrice;
    assert Fill(k, url, item, oldPrice, newPrice) == front + item + rest;
    OccursInMiddle(front, item, rest);
  }

  /** ... the old price, ... */
  lemma FillOldPriceSlot(k: Layout, url: string, item: string, oldPrice: string, newPrice: string)
    ensures OccursAt(Fill(k, url, item, oldPrice, newPrice), oldPrice, OldPriceAt(k, url, item))
  {
    var front := k.beforeUrl + url + k.urlToItem + item + k.itemToOldPrice;
    var rest := k.oldPriceToNewPrice + newPrice + k.afterNewPrice;
    assert Fill(k, url, item, oldPrice, newPrice) == front + oldPrice + rest;
    OccursInMiddle(front, oldPrice, rest);
  }

  /** ... and the new price, which runs up to the last chunk. */
  lemma FillNewPriceSlot(k: Layout, url: string, item: string, oldPrice: string, newPrice: string)
    ensures OccursAt(Fill(k, url, item, oldPrice, newPrice), newPrice, NewPriceAt(k, url, item, oldPrice))
    ensures NewPriceAt(k, url, item, oldPrice) + |newPrice| + |k.afterNewPrice| == |Fill(k, url, item, oldPrice, newPrice)|
  {
    var front := k.beforeUrl + url + k.urlToItem + item + k.itemToOldPrice + oldPrice + k.oldPriceToNewPrice;
    assert Fill(k, url, item, oldPrice, newPrice) == front + newPrice + k.afterNewPrice;
    OccursInMiddle(front, newPrice, k.afterNewPrice);
  }

  /** Reading the slots back returns the values that were filled in. */
  lemma {:induction false} FillReadBack(k: Layout, url: string, item: string, oldPrice: string, newPrice: string)
    ensures ReadSlots(k, Fill(k, url, item, oldPrice, newPrice), |url|, |item|, |oldPrice|)
         == Found(url, item, oldPrice, newPrice)
  {
    FillUrlSlot(k, url, item, oldPrice, newPrice);
    FillItemSlot(k, url, item, oldPrice, newPrice);
    FillOldPriceSlot(k, url, item, oldPrice, newPrice);
    FillNewPriceSlot(k, url, item, oldPrice, newPrice);
  }

  /** Text inside a layout's fixed chunks lands at a known offset of the
      filled output: inside the first chunk, ... */
  lemma FillInBeforeUrl(k: Layout, a: string, t: string, b: string,
                        url: string, item: string, oldPrice: string, newPrice: string)
    requires k.beforeUrl == a + t + b
    ensures OccursAt(Fill(k, url, item, oldPrice, newPrice), t, |a|)
  {
    var rest := b + url + k.urlToItem + item + k.itemToOldPrice + oldPrice + k.oldPriceToNewPrice + newPrice + k.afterNewPrice;
    assert Fill(k, url, item, oldPrice, newPrice) == a + t + rest;
    OccursInMiddle(a, t, rest);
  }

  /** ... inside the chunk between the url and the item, ... */
  lemma FillInUrlToItem(k: Layout, a: string, t: string, b: string,
                        url: string, item: string, oldPrice: string, newPrice: string)
    requires k.urlToItem == a + t + b
    ensures OccursAt(Fill(k, url, item, oldPrice, newPrice), t, UrlAt(k) + |url| + |a|)
  {
    var front := k.beforeUrl + url + a;
    var rest := b + item + k.itemToOldPrice + oldPrice + k.oldPriceToNewPrice + newPrice + k.afterNewPrice;
    assert Fill(k, url, item, oldPrice, newPrice) == front + t + rest;
    OccursInMiddle(front, t, rest);
  }

  /** ... inside the chunk between the item and the old price, ... */
  lemma FillInItemToOldPrice(k: Layout, a: string, t: string, b: string,
                             url: string, item: string, oldPrice: string, newPrice: string)
    requires k.itemToOldPrice == a + t + b
    ensures OccursAt(Fill(k, url, item, oldPrice, newPrice), t, ItemAt(k, url) + |item| + |a|)
  {
    var front := k.beforeUrl + url + k.urlToItem + item + a;
    var rest := b + oldPrice + k.oldPriceToNewPrice + newPrice + k.afterNewPrice;
    assert Fill(k, url, item, oldPrice, newPrice) == front + t + rest;
    OccursInMiddle(front, t, rest);
  }

  /** ... inside the chunk between the two prices, ... */
  lemma FillInOldToNewPrice(k: Layout, a: string, t: string, b: string,
                            url: string, item: string, oldPrice: string, newPrice: string)
    requires k.oldPriceToNewPrice == a + t + b
    ensures OccursAt(Fill(k, url, item, oldPrice, newPrice), t, OldPriceAt(k, url, item) + |oldPrice| + |a|)
  {
    var front := k.beforeUrl + url + k.urlToItem + item + k.itemToOldPrice + oldPrice + a;
    var rest := b + newPrice + k.afterNewPrice;
    assert Fill(k, url, item, oldPrice, newPrice) == front + t + rest;
    OccursInMiddle(front, t, rest);
  }

  /** ... and inside the last chunk. */
  lemma FillInAfterNewPrice(k: Layout, a: string, t: string, b: string,
                            url: string, item: string, oldPrice: string, newPrice: string)
    requires k.afterNewPrice == a + t + b
    ensures OccursAt(Fill(k, url, item, oldPrice, newPrice), t, NewPriceAt(k, url, item, oldPrice) + |newPrice| + |a|)
  {
    var front := k.beforeUrl + url + k.urlToItem + item + k.itemToOldPrice + oldPrice + k.oldPriceToNewPrice + newPrice + a;
    assert Fill(k, url, item, oldPrice, newPrice) == front + t + b;
    OccursInMiddle(front, t, b);
  }

  /** In any layout whose first chunk ends with `intro` and whose third
      chunk starts with `close`, the text `intro`, url, second chunk, item,
      `close` is contiguous. */
  lemma FillContiguousLink(k: Layout, p: string, intro: string, close: string, q: string,
                           url: string, item: string, oldPrice: string, newPrice: string)
    requires k.beforeUrl == p + intro && k.itemToOldPrice == close + q
    ensures OccursAt(Fill(k, url, item, oldPrice, newPrice), intro + url + k.urlToItem + item + close, |p|)
  {
    var link := intro + url + k.urlToItem + item + close;
    var rest := q + oldPrice + k.oldPriceToNewPrice + newPrice + k.afterNewPrice;
    assert Fill(k, url, item, oldPrice, newPrice) == p + link + rest;
    OccursInMiddle(p, link, rest);
  }

  // ---------------------------------------------------------------------
  // The alert.

  /** Where the visible text of the alert starts. */
  function GreetingAt(): nat { |DocType| + |HeadMarkup| }
  function LinkAt(): nat { GreetingAt() + |Greeting| + |GreetingToLink| }
  function OldLabelAt(url: string, item: string): nat {
    ItemAt(AlertLayout, url) + |item| + |AnchorClose| + |LinkToOldLabel|
  }
  function NewLabelAt(url: string, item: string, oldPrice: string): nat {
    OldPriceAt(AlertLayout, url, item) + |oldPrice| + |OldSlotToNewLabel|
  }
  function SignOffAt(url: string, item: string, oldPrice: string, newPrice: string): nat {
    NewPriceAt(AlertLayout, url, item, oldPrice) + |newPrice| + |NewSlotToSignOff|
  }

  /** The alert is a whole HTML document: it opens with the doctype ... */
  lemma TemplateOpensWithDoctype(item: string, url: string, oldPrice: string, newPrice: string)
    ensures OccursAt(GetEmailTemplate(item, url, oldPrice, newPrice), DocType, 0)
  {
    var rest := HeadMarkup + Greeting + GreetingToLink + LinkIntro + HrefOpen;
    assert AlertLayout.beforeUrl == [] + DocType + rest;
    FillInBeforeUrl(AlertLayout, [], DocType, rest, url, item, oldPrice, newPrice);
  }

  /** ... and closes with the `html` end tag and a newline. */
  lemma TemplateClosesWithHtmlEnd(item: string, url: string, oldPrice: string, newPrice: string)
    ensures var html := GetEmailTemplate(item, url, oldPrice, newPrice);
      |html| >= |DocType| + |DocClose| && OccursAt(html, DocClose, |html| - |DocClose|)
  {
    var k, front := AlertLayout, NewSlotToSignOff + SignOff + SignOffToEnd;
    assert k.afterNewPrice == front + DocClose + [];
    FillInAfterNewPrice(k, front, DocClose, [], url, item, oldPrice, newPrice);
    FillNewPriceSlot(k, url, item, oldPrice, newPrice);
  }

  /** The arguments are inserted verbatim, each once, in the order url,
      item, old price, new price: reading the slots back gives them back. */
  lemma TemplateReadBack(item: string, url: string, oldPrice: string, newPrice: string)
    ensures ReadSlots(AlertLayout, GetEmailTemplate(item, url, oldPrice, newPrice), |url|, |item|, |oldPrice|)
         == Found(url, item, oldPrice, newPrice)
  {
    FillReadBack(AlertLayout, url, item, oldPrice, newPrice);
  }

  /** Hence two alerts are equal only when they were filled with the same
      arguments (given equal lengths for the first three). */
  lemma TemplateInjective(item: string, url: string, oldPrice: string, newPrice: string,
                          item': string, url': string, oldPrice': string, newPrice': string)
    requires |url| == |url'| && |item| == |item'| && |oldPrice| == |oldPrice'|
    requires GetEmailTemplate(item, url, oldPrice, newPrice) == GetEmailTemplate(item', url', oldPrice', newPrice')
    ensures item == item' && url == url' && oldPrice == oldPrice' && newPrice == newPrice'
  {
    TemplateReadBack(item, url, oldPrice, newPrice);
    TemplateReadBack(item', url', oldPrice', newPrice');
  }

  /** "Price just changed for" is followed by a link whose target is `url`
      and whose text is `item`. */
  lemma TemplateLinkLine(item: string, url: string, oldPrice: string, newPrice: string)
    ensures OccursAt(GetEmailTemplate(item, url, oldPrice, newPrice),
                     LinkIntro + HrefOpen + url + HrefClose + item + AnchorClose, LinkAt())
  {
    var p := DocType + HeadMarkup + Greeting + GreetingToLink;
    assert AlertLayout.beforeUrl == p + (LinkIntro + HrefOpen);
    assert AlertLayout.itemToOldPrice == AnchorClose + (LinkToOldLabel + OldPriceLabel + OldLabelToSlot);
    FillContiguousLink(AlertLayout, p, LinkIntro + HrefOpen, AnchorClose, LinkToOldLabel + OldPriceLabel + OldLabelToSlot,
                       url, item, oldPrice, newPrice);
  }

  /** The "Old price:" label comes before the old price, which comes before
      the "New price:" label, which comes before the new price; both prices
      appear verbatim. */
  lemma TemplatePricesLabelled(item: string, url: string, oldPrice: string, newPrice: string)
    ensures var html := GetEmailTemplate(item, url, oldPrice, newPrice);
      var oldAt, newAt := OldPriceAt(AlertLayout, url, item), NewPriceAt(AlertLayout, url, item, oldPrice);
      && OccursAt(html, OldPriceLabel, OldLabelAt(url, item))
      && OldLabelAt(url, item) + |OldPriceLabel| <= oldAt
      && OccursAt(html, oldPrice, oldAt)
      && oldAt + |oldPrice| <= NewLabelAt(url, item, oldPrice)
      && OccursAt(html, NewPriceLabel, NewLabelAt(url, item, oldPrice))
      && NewLabelAt(url, item, oldPrice) + |NewPriceLabel| <= newAt
      && OccursAt(html, newPrice, newAt)
  {
    var k := AlertLayout;
    FillInItemToOldPrice(k, AnchorClose + LinkToOldLabel, OldPriceLabel, OldLabelToSlot, url, item, oldPrice, newPrice);
    FillInOldToNewPrice(k, OldSlotToNewLabel, NewPriceLabel, NewLabelToSlot, url, item, oldPrice, newPrice);
    FillOldPriceSlot(k, url, item, oldPrice, newPrice);
    FillNewPriceSlot(k, url, item, oldPrice, newPrice);
  }

  /** The greeting opens the visible text, before the link line, and the
      sign-off follows the new price. */
  lemma TemplateGreetingAndSignOff(item: string, url: string, oldPrice: string, newPrice: string)
    ensures var html := GetEmailTemplate(item, url, oldPrice, newPrice);
      && OccursAt(html, Greeting, GreetingAt())
      && GreetingAt() + |Greeting| <= LinkAt()
      && OccursAt(html, SignOff, SignOffAt(url, item, oldPrice, newPrice))
      && NewPriceAt(AlertLayout, url, item, oldPrice) + |newPrice| <= SignOffAt(url, item, oldPrice, newPrice)
  {
    var k := AlertLayout;
    assert k.beforeUrl == (DocType + HeadMarkup) + Greeting + (GreetingToLink + LinkIntro + HrefOpen);
    FillInBeforeUrl(k, DocType + HeadMarkup, Greeting, GreetingToLink + LinkIntro + HrefOpen, url, item, oldPrice, newPrice);
    assert k.afterNewPrice == NewSlotToSignOff + SignOff + (SignOffToEnd + DocClose);
    FillInAfterNewPrice(k, NewSlotToSignOff, SignOff, SignOffToEnd + DocClose, url, item, oldPrice, newPrice);
  }
}
