/** `send_alert_sms`: the decision to send one SMS about a matched person.

    The messaging client is reduced to whether it was configured at start-up
    and the sender number from the environment; the transport is the oracle
    `send`, which either delivers the message or raises with some text. */
module Alert {
  import opened Records
  import opened Text

  datatype AlertConfig = AlertConfig(clientConfigured: bool, senderNumber: Option<string>)

  datatype Message = Message(body: string, sender: Option<string>, recipient: string)

  datatype Delivery = Delivered | Raised(error: string)

  datatype AlertOutcome = Sent | SkippedNotConfigured | SkippedInvalidRecipient | Failed(reason: string)

  /** The outcome together with every message handed to the transport. */
  datatype AlertResult = AlertResult(outcome: AlertOutcome, sent: seq<Message>)

  const MapsPrefix: string := "https://maps.google.com/?q="
  const LocationUnavailable: string := "Location unavailable"
  const AlertHeader: string := "\U{1F6A8} ALERT: Missing person located! \U{1F6A8}"

  predicate LocationKnown(latitude: Option<string>, longitude: Option<string>) {
    Truthy(latitude) && Truthy(longitude)
  }

  function LocationText(latitude: Option<string>, longitude: Option<string>): string {
    if LocationKnown(latitude, longitude) then MapsPrefix + latitude.value + "," + longitude.value
    else LocationUnavailable
  }

  /** The text is a maps link exactly when both coordinates are truthy. */
  lemma LocationIsLinkIffKnown(latitude: Option<string>, longitude: Option<string>)
    ensures var t := LocationText(latitude, longitude);
            (|t| >= |MapsPrefix| && t[..|MapsPrefix|] == MapsPrefix) <==> LocationKnown(latitude, longitude)
    ensures !LocationKnown(latitude, longitude) ==> LocationText(latitude, longitude) == LocationUnavailable
  {
  }

  function AlertBody(name: string, matchScore: string, location: string): string {
    AlertHeader + "\n" + "Name: " + name + "\n" + "Match Confidence: " + matchScore + "\n"
    + "Last Seen Location: " + location
  }

  lemma NoNewlineInLabelled(prefix: string, value: string)
    requires '\n' !in prefix && '\n' !in value
    ensures '\n' !in prefix + value
  {
  }

  lemma AlertBodyNested(name: string, matchScore: string, location: string)
    ensures AlertBody(name, matchScore, location)
         == AlertHeader + "\n" + (("Name: " + name) + "\n" + (("Match Confidence: " + matchScore) + "\n"
            + ("Last Seen Location: " + location)))
  {
  }

  lemma HeaderHasNoNewline()
    ensures '\n' !in AlertHeader
  {
  }

  /** The message reads back as its four lines: the header, the name, the
      confidence and the location, provided none of them holds a newline. */
  lemma AlertBodyLines(name: string, matchScore: string, location: string)
    requires '\n' !in name && '\n' !in matchScore && '\n' !in location
    ensures SplitLines(AlertBody(name, matchScore, location))
         == [AlertHeader, "Name: " + name, "Match Confidence: " + matchScore, "Last Seen Location: " + location]
  {
    var l1, l2, l3 := "Name: " + name, "Match Confidence: " + matchScore, "Last Seen Location: " + location;
    HeaderHasNoNewline();
    NoNewlineInLabelled("Name: ", name);
    NoNewlineInLabelled("Match Confidence: ", matchScore);
    NoNewlineInLabelled("Last Seen Location: ", location);
    AlertBodyNested(name, matchScore, location);
    SplitLineFree(l3);
    SplitFirstLine(l2, l3);
    SplitFirstLine(l1, l2 + "\n" + l3);
    SplitFirstLine(AlertHeader, l1 + "\n" + (l2 + "\n" + l3));
  }

  /** `not phone or phone == TWILIO_PHONE_NUMBER` rejects the recipient. */
  predicate ValidRecipient(phone: Option<string>, sender: Option<string>) {
    Truthy(phone) && phone != sender
  }

  /** `send_alert_sms`: the client check comes first, then the recipient
      check, then exactly one send attempt whose exception, if any, becomes a
      failure status. */
  function SendAlertSms(config: AlertConfig, person: Person, matchScore: string,
                        latitude: Option<string>, longitude: Option<string>,
                        send: Message -> Delivery): (r: AlertResult)
    ensures |r.sent| <= 1
    ensures r.outcome == SkippedNotConfigured <==> !config.clientConfigured
    ensures r.outcome == SkippedInvalidRecipient <==>
              config.clientConfigured && !ValidRecipient(person.phone, config.senderNumber)
    ensures r.sent != [] <==> config.clientConfigured && ValidRecipient(person.phone, config.senderNumber)
    ensures r.sent != [] ==>
              r.sent[0] == Message(AlertBody(person.name, matchScore, LocationText(latitude, longitude)),
                                   config.senderNumber, person.phone.value)
    ensures r.outcome == Sent <==> r.sent != [] && send(r.sent[0]) == Delivered
    ensures r.outcome.Failed? <==> r.sent != [] && send(r.sent[0]).Raised?
    ensures r.outcome.Failed? ==> r.outcome.reason == send(r.sent[0]).error
  {
    if !config.clientConfigured then AlertResult(SkippedNotConfigured, [])
    else
      var location := LocationText(latitude, longitude);
      if !Truthy(person.phone) || person.phone == config.senderNumber then AlertResult(SkippedInvalidRecipient, [])
      else
        var message := Message(AlertBody(person.name, matchScore, location), config.senderNumber, person.phone.value);
        match send(message)
        case Delivered => AlertResult(Sent, [message])
        case Raised(e) => AlertResult(Failed(e), [message])
  }

  /** An unconfigured client skips before the phone number is looked at: the
      result does not depend on the person's phone. */
  lemma NotConfiguredIgnoresPhone(config: AlertConfig, person: Person, phone: Option<string>, matchScore: string,
                                  latitude: Option<string>, longitude: Option<string>, send: Message -> Delivery)
    requires !config.clientConfigured
    ensures SendAlertSms(config, person, matchScore, latitude, longitude, send)
         == SendAlertSms(config, person.(phone := phone), matchScore, latitude, longitude, send)
  {
  }

  /** The status text returned to the caller. */
  function StatusText(o: AlertOutcome): string {
    match o
    case Sent => "SMS Notification Sent successfully."
    case SkippedNotConfigured => "SMS Alert skipped: Twilio client not configured."
    case SkippedInvalidRecipient => "SMS Alert skipped: Invalid recipient phone number."
    case Failed(e) => "SMS Send Failed: " + e
  }

  lemma StatusTextTag(o: AlertOutcome)
    ensures |StatusText(o)| > 4
    ensures StatusText(o)[4] == 'S' <==> o.Failed?
  {
    match o
    case Sent => assert StatusText(o) == "SMS Notification Sent successfully.";
    case SkippedNotConfigured => assert StatusText(o) == "SMS Alert skipped: Twilio client not configured.";
    case SkippedInvalidRecipient => assert StatusText(o) == "SMS Alert skipped: Invalid recipient phone number.";
    case Failed(e) => assert StatusText(o) == "SMS Send Failed: " + e;
  }

  /** Every outcome has its own status text, so a caller can tell them apart. */
  lemma StatusTextInjective(a: AlertOutcome, b: AlertOutcome)
    requires StatusText(a) == StatusText(b)
    ensures a == b
  {
    StatusTextTag(a);
    StatusTextTag(b);
    if a.Failed? && b.Failed? {
      var s := StatusText(a);
      assert a.reason == s[17..] == b.reason;
    }
  }
}
