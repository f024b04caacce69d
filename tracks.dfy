/**
 * The two simulations as shipped: the text message track and the e-mail
 * track, their example catalogues (abstracted to ids), and what follows for
 * each.  The text message track can be finished.  The e-mail track as written
 * cannot: two of its flags have no click target, so the second example never
 * has every flag found, Next never appears there, and the simulation never
 * completes.  `FixedEmailTrack` gives those two flags a body keyword and lets
 * the body click the first unfound keyword flag; it can be finished.
 */
module Tracks {
  import opened Common
  import opened Progress
  import opened Engine
  import opened Text
  import opened Targets
  import opened Reachability
  import opened SessionProperties
  import opened Keywords

  const SmsTrack: Track := Track(
    "sms-scam-1",
    ["sms-guardian", "security-novice", "eagle-eye"],
    Some(CrossTrackRule("phishing-email-1", "scam-buster")),
    "unknown-sender",
    SmsBodyKeywords, FirstMatch,
    SmsLinkKeywords,
    SmsOfferKeywords)

  const EmailTrack: Track := Track(
    "phishing-email-1",
    ["phishing-detector", "security-novice", "eagle-eye"],
    None,
    "suspicious-sender",
    EmailBodyKeywords, FirstMatch,
    EmailLinkKeywords,
    EmailOfferKeywords)

  /** The e-mail track with every flag reachable from the body or a button. */
  const FixedEmailTrack: Track :=
    EmailTrack.(bodyKeywords := FixedEmailBodyKeywords, bodyPick := FirstUnfoundMatch)

  const SmsCatalog: seq<Example> := [
    Example("bank-sms", [Flag("unknown-sender", false), Flag("urgent-threat", false),
                         Flag("suspicious-link", false)]),
    Example("delivery-scam", [Flag("unexpected-package", false), Flag("pay-for-delivery", false),
                              Flag("shortened-url", false)]),
    Example("tax-refund", [Flag("irs-doesnt-text", false), Flag("fake-urgency-refund", false),
                           Flag("fake-website", false)])
  ]

  const EmailCatalog: seq<Example> := [
    Example("bank-phishing", [Flag("suspicious-sender", false), Flag("urgent-language", false),
                              Flag("suspicious-link", false)]),
    Example("prize-scam", [Flag("unexpected-prize", false), Flag("pay-to-win", false),
                           Flag("fake-urgency", false)]),
    Example("tech-support", [Flag("microsoft-doesnt-email", false), Flag("fake-phone-number", false),
                             Flag("scare-tactics", false)])
  ]

  lemma TracksWellFormed()
    ensures WellFormed(SmsTrack) && WellFormed(EmailTrack) && WellFormed(FixedEmailTrack)
  {
  }

  /** Completing the text message track with no badge held: its three badges, the cross-track badge if the e-mail track was completed, then the report. */
  lemma SmsCompletionFromScratch(up: UserProgress)
    requires up.badges == []
    ensures CompletionEvents(SmsTrack, up) ==
      [Unlock("sms-guardian"), Unlock("security-novice"), Unlock("eagle-eye")] +
      (if "phishing-email-1" in up.completedSimulations then [Unlock("scam-buster")] else []) +
      [Complete("sms-scam-1")]
  {
    var bs := SmsTrack.completionBadges;
    assert UnlockAbsent(bs[2..], []) == [Unlock("eagle-eye")] by {
      assert bs[2..][1..] == [];
    }
    assert UnlockAbsent(bs[1..], []) == [Unlock("security-novice"), Unlock("eagle-eye")] by {
      assert bs[1..][1..] == bs[2..];
    }
    assert UnlockAbsent(bs, []) == [Unlock("sms-guardian"), Unlock("security-novice"), Unlock("eagle-eye")];
    assert CompletionEvents(SmsTrack, up) ==
      UnlockAbsent(bs, up.badges) + CrossTrackEvents(SmsTrack, up) + [Complete("sms-scam-1")];
  }

  /** Completing the e-mail track reports 'phishing-email-1' and never grants the cross-track badge. */
  lemma EmailCompletionNoScamBuster(t: Track, up: UserProgress)
    requires t == EmailTrack || t == FixedEmailTrack
    ensures var r := CompletionEvents(t, up);
            r[|r| - 1] == Complete("phishing-email-1") && Unlock("scam-buster") !in r
  {
    assert t.crossTrack.None? && "scam-buster" !in t.completionBadges;
  }

  /**
   * Only the first example of each track has the sender flag, yet the sender
   * button is rendered on all of them: on the others each press pays the
   * flag reward and finds nothing.
   */
  lemma SenderFlagOnlyFirst(k: int, i: int)
    requires 1 <= k < 3 && 0 <= i < 3
    ensures |SmsCatalog[k].redFlags| == 3 && SmsCatalog[k].redFlags[i].id != SmsTrack.senderFlag
    ensures |EmailCatalog[k].redFlags| == 3 && EmailCatalog[k].redFlags[i].id != EmailTrack.senderFlag
  {
    var sms, mail := SmsCatalog[k].redFlags[i].id, EmailCatalog[k].redFlags[i].id;
    assert |sms| != 14;
    assert |mail| != 17 || mail[0] != 's';
  }

  // ---- The text message track: every flag has a click target ----

  lemma BankSmsReachable()
    ensures forall j :: 0 <= j < |SmsCatalog[0].redFlags| ==> Reachable(SmsTrack, SmsCatalog[0].redFlags, j)
  {
    var fs := SmsCatalog[0].redFlags;
    forall j | 0 <= j < |fs| ensures Reachable(SmsTrack, fs, j) {
      if j == 1 {
        UnknownSenderHasNoBodyKeyword();
        HasKeyword("urgent-threat", SmsBodyKeywords, 0, "", "-threat");
      } else if j == 2 {
        HasKeyword("suspicious-link", SmsLinkKeywords + SmsOfferKeywords, 0, "suspicious-", "");
      }
    }
  }

  lemma DeliveryScamReachable()
    ensures forall j :: 0 <= j < |SmsCatalog[1].redFlags| ==> Reachable(SmsTrack, SmsCatalog[1].redFlags, j)
  {
    var fs := SmsCatalog[1].redFlags;
    forall j | 0 <= j < |fs| ensures Reachable(SmsTrack, fs, j) {
      if j == 0 {
        HasKeyword("unexpected-package", SmsLinkKeywords + SmsOfferKeywords, 4, "unexpected-", "");
      } else if j == 1 {
        HasKeyword("pay-for-delivery", SmsLinkKeywords + SmsOfferKeywords, 3, "", "-for-delivery");
      } else {
        HasKeyword("shortened-url", SmsLinkKeywords + SmsOfferKeywords, 1, "shortened-", "");
      }
    }
  }

  lemma TaxRefundReachable()
    ensures forall j :: 0 <= j < |SmsCatalog[2].redFlags| ==> Reachable(SmsTrack, SmsCatalog[2].redFlags, j)
  {
    var fs := SmsCatalog[2].redFlags;
    forall j | 0 <= j < |fs| ensures Reachable(SmsTrack, fs, j) {
      if j == 0 {
        HasKeyword("irs-doesnt-text", SmsBodyKeywords, 2, "irs-", "-text");
      } else if j == 1 {
        HasKeyword("fake-urgency-refund", SmsLinkKeywords + SmsOfferKeywords, 5, "fake-urgency-", "");
      } else {
        HasKeyword("fake-website", SmsLinkKeywords + SmsOfferKeywords, 2, "fake-", "");
      }
    }
  }

  /** Every flag of the text message catalogue has a click target. */
  lemma SmsAllReachable()
    ensures AheadReachable(SmsTrack, Start(SmsCatalog))
  {
    BankSmsReachable();
    DeliveryScamReachable();
    TaxRefundReachable();
  }

  /** The text message simulation as written can be finished from any progress record. */
  lemma SmsCompletable(up: UserProgress) returns (actions: seq<UiAction>)
    ensures var r := Run(SmsTrack, Start(SmsCatalog), up, actions);
            r.session.simulationComplete && Complete("sms-scam-1") in r.emitted
  {
    SmsAllReachable();
    actions := CompletingActions(SmsTrack, Start(SmsCatalog), up);
  }

  // ---- The e-mail track as written: two flags have no click target ----

  /** 'fake-urgency', the third flag of 'prize-scam', has no click target. */
  lemma PrizeScamFlagUnreachable()
    ensures EmailCatalog[1].redFlags[2].id == "fake-urgency"
    ensures !Reachable(EmailTrack, EmailCatalog[1].redFlags, 2)
  {
    FakeUrgencyHasNoBodyKeyword();
    FakeUrgencyHasNoButtonKeyword();
  }

  /** 'microsoft-doesnt-email', the first flag of 'tech-support', has no click target. */
  lemma TechSupportFlagUnreachable()
    ensures EmailCatalog[2].redFlags[0].id == "microsoft-doesnt-email"
    ensures !Reachable(EmailTrack, EmailCatalog[2].redFlags, 0)
  {
    MicrosoftDoesntEmailHasNoBodyKeyword();
    MicrosoftDoesntEmailHasNoButtonKeyword();
  }

  /**
   * What every reachable state of the e-mail track as written satisfies: at
   * most on the second example, not complete, and the 'fake-urgency' flag of
   * the second example not found.
   */
  predicate EmailStuck(s: Session) {
    && Inv(s) && |s.examples| == 3 && s.currentExample <= 1 && !s.simulationComplete
    && |s.examples[1].redFlags| == 3 && s.examples[1].redFlags[2] == Flag("fake-urgency", false)
  }

  /** A click on the e-mail track as written never finds 'fake-urgency' and never completes. */
  lemma ClickKeepsEmailStuck(s: Session, id: string, up: UserProgress)
    requires EmailStuck(s) && id != "fake-urgency"
    ensures var o := Click(EmailTrack, s, id, up);
            EmailStuck(o.state) && forall e :: e in o.emitted ==> e.AddPoints?
  {
    var o := Click(EmailTrack, s, id, up);
    if s.currentExample == 1 {
      assert !Current(o.state).redFlags[2].found;
    } else {
      assert o.state.examples[1] == s.examples[1];
    }
    assert |o.emitted| <= 2;
  }

  lemma PerformKeepsEmailStuck(s: Session, up: UserProgress, a: UiAction)
    requires EmailStuck(s)
    ensures var o := Perform(EmailTrack, s, up, a);
            EmailStuck(o.state) && forall e :: e in o.emitted ==> e.AddPoints?
  {
    FakeUrgencyHasNoBodyKeyword();
    FakeUrgencyHasNoButtonKeyword();
    var fs := Current(s).redFlags;
    if s.currentExample == 1 {
      assert !Every(fs) by { assert !fs[2].found; }
    }
    if Enabled(EmailTrack, s, a) {
      match a
      case Press(id) =>
        ClickKeepsEmailStuck(s, id, up);
      case BodyClick => {
        match BodyTarget(EmailTrack, fs)
        case None =>
        case Some(id) => ClickKeepsEmailStuck(s, id, up);
      }
      case UndoButton =>
        var o := Undo(s);
        assert o.state.examples[1].redFlags[2] == Flag("fake-urgency", false);
      case NextButton =>
      case PrevButton =>
    }
  }

  /**
   * Whatever the user does, the e-mail simulation as written never completes:
   * it never leaves the second example, and its only callbacks are point
   * awards, so no badge is unlocked and no completion is reported.
   */
  lemma {:induction false} EmailRunStuck(s: Session, up: UserProgress, actions: seq<UiAction>)
    requires EmailStuck(s)
    ensures var r := Run(EmailTrack, s, up, actions);
            EmailStuck(r.session) && forall e :: e in r.emitted ==> e.AddPoints?
    decreases |actions|
  {
    if actions != [] {
      var o := Perform(EmailTrack, s, up, actions[0]);
      PerformKeepsEmailStuck(s, up, actions[0]);
      EmailRunStuck(o.state, ApplyAll(up, o.emitted), actions[1..]);
    }
  }

  lemma EmailNeverCompletes(up: UserProgress, actions: seq<UiAction>)
    ensures var r := Run(EmailTrack, Start(EmailCatalog), up, actions);
            && !r.session.simulationComplete
            && r.session.currentExample <= 1
            && Complete("phishing-email-1") !in r.emitted
            && r.progress.badges == up.badges
            && r.progress.completedSimulations == up.completedSimulations
  {
    var r := Run(EmailTrack, Start(EmailCatalog), up, actions);
    EmailRunStuck(Start(EmailCatalog), up, actions);
    NoBadgesWithoutUnlock(r.emitted);
    ApplyAllEffect(up, r.emitted);
    NoCompletionsWithoutComplete(r.emitted);
    assert up.badges + [] == up.badges;
    assert up.completedSimulations + [] == up.completedSimulations;
  }

  // ---- The corrected e-mail track ----

  lemma BankPhishingReachable()
    ensures forall j :: 0 <= j < |EmailCatalog[0].redFlags| ==>
      Reachable(FixedEmailTrack, EmailCatalog[0].redFlags, j)
  {
    var fs := EmailCatalog[0].redFlags;
    forall j | 0 <= j < |fs| ensures Reachable(FixedEmailTrack, fs, j) {
      if j == 1 {
        HasKeyword("urgent-language", FixedEmailBodyKeywords, 0, "", "-language");
      } else if j == 2 {
        HasKeyword("suspicious-link", EmailLinkKeywords + EmailOfferKeywords, 0, "suspicious-", "");
      }
    }
  }

  lemma PrizeScamReachable()
    ensures forall j :: 0 <= j < |EmailCatalog[1].redFlags| ==>
      Reachable(FixedEmailTrack, EmailCatalog[1].redFlags, j)
  {
    var fs := EmailCatalog[1].redFlags;
    forall j | 0 <= j < |fs| ensures Reachable(FixedEmailTrack, fs, j) {
      if j == 0 {
        HasKeyword("unexpected-prize", EmailLinkKeywords + EmailOfferKeywords, 2, "unexpected-", "");
      } else if j == 1 {
        HasKeyword("pay-to-win", EmailLinkKeywords + EmailOfferKeywords, 1, "", "-to-win");
      } else {
        HasKeyword("fake-urgency", FixedEmailBodyKeywords, 1, "fake-", "");
      }
    }
  }

  lemma TechSupportReachable()
    ensures forall j :: 0 <= j < |EmailCatalog[2].redFlags| ==>
      Reachable(FixedEmailTrack, EmailCatalog[2].redFlags, j)
  {
    var fs := EmailCatalog[2].redFlags;
    forall j | 0 <= j < |fs| ensures Reachable(FixedEmailTrack, fs, j) {
      if j == 0 {
        HasKeyword("microsoft-doesnt-email", FixedEmailBodyKeywords, 4, "microsoft-", "-email");
      } else if j == 1 {
        HasKeyword("fake-phone-number", EmailLinkKeywords + EmailOfferKeywords, 3, "fake-", "-number");
      } else {
        HasKeyword("scare-tactics", FixedEmailBodyKeywords, 3, "", "-tactics");
      }
    }
  }

  /** With the corrected keywords every flag of the e-mail catalogue has a click target. */
  lemma FixedEmailAllReachable()
    ensures AheadReachable(FixedEmailTrack, Start(EmailCatalog))
  {
    BankPhishingReachable();
    PrizeScamReachable();
    TechSupportReachable();
  }

  /** The corrected e-mail simulation can be finished from any progress record. */
  lemma FixedEmailCompletable(up: UserProgress) returns (actions: seq<UiAction>)
    ensures var r := Run(FixedEmailTrack, Start(EmailCatalog), up, actions);
            r.session.simulationComplete && Complete("phishing-email-1") in r.emitted
  {
    FixedEmailAllReachable();
    actions := CompletingActions(FixedEmailTrack, Start(EmailCatalog), up);
  }
}
