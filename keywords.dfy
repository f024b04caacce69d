/**
 * The keyword lists behind the click targets of the two simulations and
 * which flag ids they match.  The body's `find` tests the body keywords; one
 * button is rendered per flag whose id has a link or an offer keyword.
 */
module Keywords {
  import opened Text

  const SmsBodyKeywords: seq<string> := ["urgent", "threat", "doesnt"]
  const SmsLinkKeywords: seq<string> := ["link", "url", "website"]
  const SmsOfferKeywords: seq<string> := ["pay", "package", "refund"]

  const EmailBodyKeywords: seq<string> := ["urgent", "language", "scare"]
  const EmailLinkKeywords: seq<string> := ["link"]
  const EmailOfferKeywords: seq<string> := ["pay", "prize", "phone"]

  /** The corrected body keywords: also 'urgency' and 'doesnt'. */
  const FixedEmailBodyKeywords: seq<string> := ["urgent", "urgency", "language", "scare", "doesnt"]

  // ---- text messages ----

  /** 'unknown-sender' has no body keyword, so the body's first match in 'bank-sms' is the second flag. */
  lemma UnknownSenderHasNoBodyKeyword()
    ensures !ContainsAny("unknown-sender", SmsBodyKeywords)
  {
    Lacks("unknown-sender", "urgent", 2);
    Lacks("unknown-sender", "threat", 0);
    Lacks("unknown-sender", "doesnt", 5);
  }

  // ---- e-mails ----

  /** 'fake-urgency' has no body keyword of the e-mail track. */
  lemma FakeUrgencyHasNoBodyKeyword()
    ensures !ContainsAny("fake-urgency", EmailBodyKeywords)
  {
    Lacks("fake-urgency", "urgent", 5);
    Lacks("fake-urgency", "language", 0);
    Lacks("fake-urgency", "scare", 0);
  }

  /** 'fake-urgency' has no button keyword of the e-mail track. */
  lemma FakeUrgencyHasNoButtonKeyword()
    ensures !ContainsAny("fake-urgency", EmailLinkKeywords + EmailOfferKeywords)
  {
    Lacks("fake-urgency", "link", 0);
    Lacks("fake-urgency", "pay", 0);
    Lacks("fake-urgency", "prize", 0);
    Lacks("fake-urgency", "phone", 0);
  }

  /** Only 'c' of 'scare' is rare enough to tell: it is at position 2 of 'microsoft-doesnt-email', where 'scare' does not fit. */
  lemma MicrosoftDoesntEmailLacksScare()
    ensures !Contains("microsoft-doesnt-email", "scare")
  {
    assert "scare"[1] == 'c';
    assert "microsoft-doesnt-email" == "mi" + ['c'] + "rosoft-doesnt-email";
    LacksExceptAt("microsoft-doesnt-email", "scare", 1, "mi", "rosoft-doesnt-email", 0);
  }

  /** 'microsoft-doesnt-email' has no body keyword of the e-mail track. */
  lemma MicrosoftDoesntEmailHasNoBodyKeyword()
    ensures !ContainsAny("microsoft-doesnt-email", EmailBodyKeywords)
  {
    Lacks("microsoft-doesnt-email", "urgent", 0);
    Lacks("microsoft-doesnt-email", "language", 3);
    MicrosoftDoesntEmailLacksScare();
  }

  /** 'microsoft-doesnt-email' has no button keyword of the e-mail track. */
  lemma MicrosoftDoesntEmailHasNoButtonKeyword()
    ensures !ContainsAny("microsoft-doesnt-email", EmailLinkKeywords + EmailOfferKeywords)
  {
    Lacks("microsoft-doesnt-email", "link", 3);
    Lacks("microsoft-doesnt-email", "pay", 0);
    Lacks("microsoft-doesnt-email", "prize", 0);
    Lacks("microsoft-doesnt-email", "phone", 0);
  }
}
