/** The change notifier (`price-notification.ts`): invoked by the price
    table's change stream, it looks at the first record of the batch and,
    for a `MODIFY` record, sends one price-alert email to the row's owner. */
module PriceNotification {

  import opened Common
  import opened Rows
  import opened EmailTemplate

  const Modify := "MODIFY"
  const SubjectPrefix := "\U{1F4B0} Price alert - "
  const Charset := "UTF-8"

  /** One change-stream record: its event name (`INSERT`, `MODIFY` or
      `REMOVE`) and the row after and before the change, each absent when
      the record carries none. */
  datatype StreamRecord = StreamRecord(eventName: string, newImage: Option<PriceRow>, oldImage: Option<PriceRow>)

  /** The batch the stream delivers to one invocation. */
  datatype StreamEvent = StreamEvent(records: seq<StreamRecord>)

  /** The `SendEmailCommand` input. */
  datatype EmailRequest = EmailRequest(
    source: string,
    toAddresses: seq<string>,
    subject: string,
    subjectCharset: string,
    htmlBody: string,
    htmlCharset: string)

  /** What an invocation decides before it talks to SES. */
  datatype Decision =
    | Ignore                   // not a MODIFY record: return without sending
    | Send(request: EmailRequest)
    | Malformed                // no record, or a MODIFY without both images

  /** What an invocation did: the requests it sent and how it ended. */
  datatype Invocation = Invocation(sends: seq<EmailRequest>, outcome: Outcome)

  /** The alert for a row that changed from `before` to `after`: from and to
      the row's owner, naming the item, with the old and new price. */
  function Alert(after: PriceRow, before: PriceRow): EmailRequest {
    EmailRequest(
      after.email,
      [after.email],
      SubjectPrefix + after.item,
      Charset,
      GetEmailTemplate(after.item, after.url, before.price, after.price),
      Charset)
  }

  /** Only `Records[0]` is read. Destructuring a missing record, or
      unmarshalling a missing image, throws before any send. */
  function Decide(event: StreamEvent): Decision {
    if |event.records| == 0 then Malformed
    else
      var record := event.records[0];
      if record.eventName != Modify then Ignore
      else if record.newImage.None? || record.oldImage.None? then Malformed
      else Send(Alert(record.newImage.value, record.oldImage.value))
  }

  /** The handler, given whether SES accepts the send: a rejected send is
      rethrown as "Uuuups!"; a malformed event fails with an error thrown
      before the handler's `try`, which is not "Uuuups!". */
  function Handle(event: StreamEvent, sendSucceeds: bool): (run: Invocation)
    ensures |run.sends| <= 1
    ensures run.outcome == Returned || run.outcome == Rethrown || run.outcome == Threw(UncaughtError)
    ensures run.outcome == Rethrown ==> |run.sends| == 1 && !sendSucceeds
    ensures Decide(event).Send? ==>
      run.sends == [Decide(event).request] && run.outcome == (if sendSucceeds then Returned else Rethrown)
  {
    match Decide(event)
    case Malformed => Invocation([], Threw(UncaughtError))
    case Ignore => Invocation([], Returned)
    case Send(request) => Invocation([request], if sendSucceeds then Returned else Rethrown)
  }

  /** A record that is not a MODIFY never produces a send, and the
      invocation succeeds. */
  lemma NonModifySendsNothing(event: StreamEvent, sendSucceeds: bool)
    requires |event.records| > 0 && event.records[0].eventName != Modify
    ensures Handle(event, sendSucceeds) == Invocation([], Returned)
  {
  }

  /** Exactly one send happens, and only for a well-formed MODIFY record. */
  lemma SendIffModify(event: StreamEvent, sendSucceeds: bool)
    ensures |Handle(event, sendSucceeds).sends| == 1 <==>
      && |event.records| > 0
      && event.records[0].eventName == Modify
      && event.records[0].newImage.Some?
      && event.records[0].oldImage.Some?
  {
  }

  /** Records after the first are ignored. */
  lemma OnlyFirstRecordCounts(first: StreamRecord, rest: seq<StreamRecord>, sendSucceeds: bool)
    ensures Handle(StreamEvent([first] + rest), sendSucceeds) == Handle(StreamEvent([first]), sendSucceeds)
  {
  }

  /** The one send of a MODIFY: from and to the new image's `email` alone;
      the subject is the fixed prefix followed by the item; the body is the
      template filled from the new image's item, url and price and the old
      image's price. */
  lemma AlertAddressing(after: PriceRow, before: PriceRow, rest: seq<StreamRecord>, sendSucceeds: bool)
    ensures var run := Handle(StreamEvent([StreamRecord(Modify, Some(after), Some(before))] + rest), sendSucceeds);
      && |run.sends| == 1
      && run.sends[0].source == after.email
      && run.sends[0].toAddresses == [after.email]
      && run.sends[0].subject[..|SubjectPrefix|] == SubjectPrefix
      && run.sends[0].subject[|SubjectPrefix|..] == after.item
      && run.sends[0].htmlBody == GetEmailTemplate(after.item, after.url, before.price, after.price)
      && run.outcome == (if sendSucceeds then Returned else Rethrown)
  {
    var subject := SubjectPrefix + after.item;
    assert subject[..|SubjectPrefix|] == SubjectPrefix;
    assert subject[|SubjectPrefix|..] == after.item;
  }

  /** The alert's body shows the old price under its label, then the new
      price under its label, and links the item's page under its name. */
  lemma AlertShowsPriceChange(after: PriceRow, before: PriceRow)
    ensures var body := Alert(after, before).htmlBody;
      var oldAt, newAt := OldPriceAt(AlertLayout, after.url, after.item),
                          NewPriceAt(AlertLayout, after.url, after.item, before.price);
      && OccursAt(body, before.price, oldAt)
      && OccursAt(body, after.price, newAt)
      && oldAt + |before.price| <= NewLabelAt(after.url, after.item, before.price)
      && OccursAt(body, NewPriceLabel, NewLabelAt(after.url, after.item, before.price))
      && OccursAt(body, LinkIntro + HrefOpen + after.url + HrefClose + after.item + AnchorClose, LinkAt())
  {
    TemplatePricesLabelled(after.item, after.url, before.price, after.price);
    TemplateLinkLine(after.item, after.url, before.price, after.price);
  }

  /** The handler does not compare prices: a MODIFY whose old and new
      prices are equal still sends an alert. */
  lemma EqualPricesStillSend(after: PriceRow, before: PriceRow, sendSucceeds: bool)
    requires before.price == after.price
    ensures Handle(StreamEvent([StreamRecord(Modify, Some(after), Some(before))]), sendSucceeds).sends
         == [Alert(after, before)]
  {
  }

  /** A MODIFY taking a widget from "$10.00" to "$12.00" sends one alert to
      its owner whose subject ends with "Widget" and whose body shows both
      prices, old before new. */
  lemma WidgetExample(url: string, selector: string, id: string)
    ensures var before := PriceRow(id, url, selector, "Widget", "$10.00", "a@example.com");
      var after := before.(price := "$12.00");
      var run := Handle(StreamEvent([StreamRecord(Modify, Some(after), Some(before))]), true);
      var oldAt, newAt := OldPriceAt(AlertLayout, url, "Widget"), NewPriceAt(AlertLayout, url, "Widget", "$10.00");
      && run.outcome == Returned
      && |run.sends| == 1
      && run.sends[0].toAddresses == ["a@example.com"]
      && run.sends[0].subject[|SubjectPrefix|..] == "Widget"
      && OccursAt(run.sends[0].htmlBody, "$10.00", oldAt)
      && OccursAt(run.sends[0].htmlBody, "$12.00", newAt)
      && oldAt < newAt
  {
    var before := PriceRow(id, url, selector, "Widget", "$10.00", "a@example.com");
    var after := before.(price := "$12.00");
    AlertAddressing(after, before, [], true);
    assert [StreamRecord(Modify, Some(after), Some(before))] + [] == [StreamRecord(Modify, Some(after), Some(before))];
    AlertShowsPriceChange(after, before);
  }
}
