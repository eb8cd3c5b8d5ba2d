/**
 * The scheduled email sweep: for every avatar that is active and has an email
 * connector, fetch the unread mail, reply to or ignore each message, publish
 * a notice for each ignored one, and flag the handled ones as read.
 */
module EmailSweep {
  import opened Wrappers
  import opened Text
  import opened Schedule
  import opened EmailConnector
  import opened Events

  /** What the sweep asks of the outside world, in the order it asks. */
  datatype Effect =
    | Fetch(avatarId: string)
    | Send(avatarId: string, to: string, subject: string, body: string)
    | Publish(message: InternalMessage)
    | MarkRead(avatarId: string, ids: seq<string>)

  /**
   * The collaborators one avatar's emails are handled with: the reply/ignore
   * filter, reply generation (`Err` when it raises) and the connector's
   * `send_message` (to, subject, body; false when sending failed).
   */
  datatype Handlers = Handlers(
    shouldReply: Email -> bool,
    reply: Email -> Result<string>,
    send: (string, string, string) -> bool)

  /** What `fetch_updates` returned: no connection, or a connection and the unread emails. */
  datatype FetchResult = FetchFailed | Fetched(emails: seq<Email>)

  /** A configured email connector: what fetching gives and how emails are handled. */
  datatype Mailbox = Mailbox(fetched: FetchResult, handlers: Handlers)

  /** One loaded avatar: its id, its `schedule` and its email connector, if any. */
  datatype Avatar = Avatar(id: string, schedule: Option<Entries>, connector: Option<Mailbox>)

  /** What becomes of one email. */
  datatype Fate = Replied | Ignored | Unsent | Raises

  function ReplySubject(e: Email): (r: string)
    ensures |r| == |e.subject| + 4 && r[..4] == "Re: " && r[4..] == e.subject
  {
    "Re: " + e.subject
  }

  function FateOf(e: Email, h: Handlers): Fate {
    if !h.shouldReply(e) then Ignored
    else match h.reply(e)
      case Err(_) => Raises
      case Ok(body) => if h.send(e.from, ReplySubject(e), body) then Replied else Unsent
  }

  /** The notice published for an ignored email. */
  function IgnoredEvent(avatarId: string, e: Email): (m: InternalMessage)
    ensures m.sender == avatarId && m.messageType == "email_ignored" && m.recipient.None?
    ensures m.payload.Keys == {"from", "subject", "body_preview"}
    ensures m.payload["body_preview"] <= e.body && |m.payload["body_preview"]| == Min(|e.body|, 200)
  {
    InternalMessage(avatarId, "email_ignored",
      map["from" := e.from, "subject" := e.subject, "body_preview" := Prefix(e.body, 200)], None)
  }

  /** The effects of handling one email. */
  function EmailEffects(avatarId: string, e: Email, h: Handlers): seq<Effect> {
    if !h.shouldReply(e) then [Publish(IgnoredEvent(avatarId, e))]
    else match h.reply(e)
      case Err(_) => []
      case Ok(body) => [Send(avatarId, e.from, ReplySubject(e), body)]
  }

  /** The state of the email loop: the two id lists, the effects so far, and whether it raised. */
  datatype Filing = Filing(processed: seq<string>, ignored: seq<string>, effects: seq<Effect>, raised: bool)

  /** Handling one more email after `f`. */
  function Step(avatarId: string, f: Filing, e: Email, h: Handlers): Filing {
    if f.raised then f
    else
      var fate := FateOf(e, h);
      Filing(f.processed + (if fate == Replied then [e.id] else []),
             f.ignored + (if fate == Ignored then [e.id] else []),
             f.effects + EmailEffects(avatarId, e, h),
             fate == Raises)
  }

  /** The email loop over `es`, in order; an exception ends it. */
  function FileEmails(avatarId: string, es: seq<Email>, h: Handlers): Filing
    decreases |es|
  {
    if es == [] then Filing([], [], [], false)
    else Step(avatarId, FileEmails(avatarId, es[..|es| - 1], h), es[|es| - 1], h)
  }

  /** The emails loop of `scheduled_email_check`, with its two lists built by appending. */
  method ProcessEmails(avatarId: string, emails: seq<Email>, h: Handlers)
    returns (processed: seq<string>, ignored: seq<string>, effects: seq<Effect>, raised: bool)
    ensures Filing(processed, ignored, effects, raised) == FileEmails(avatarId, emails, h)
  {
    processed, ignored, effects, raised := [], [], [], false;
    var i := 0;
    while i < |emails|
      invariant 0 <= i <= |emails|
      invariant Filing(processed, ignored, effects, false) == FileEmails(avatarId, emails[..i], h)
    {
      var e := emails[i];
      assert emails[..i + 1][..i] == emails[..i];
      if h.shouldReply(e) {
        var body := h.reply(e);
        if body.Err? {
          raised := true;
          RaisedIsFinal(avatarId, emails, h, i + 1);
          return;
        }
        var subject := "Re: " + e.subject;
        var success := h.send(e.from, subject, body.value);
        effects := effects + [Send(avatarId, e.from, subject, body.value)];
        if success {
          processed := processed + [e.id];
        }
      } else {
        ignored := ignored + [e.id];
        effects := effects + [Publish(IgnoredEvent(avatarId, e))];
      }
      i := i + 1;
    }
    assert emails[..i] == emails;
  }

  /** Once an email raises, the later ones change nothing. */
  lemma {:induction false} RaisedIsFinal(avatarId: string, es: seq<Email>, h: Handlers, k: nat)
    requires k <= |es| && FileEmails(avatarId, es[..k], h).raised
    ensures FileEmails(avatarId, es, h) == FileEmails(avatarId, es[..k], h)
  {
    if k < |es| {
      var init := es[..|es| - 1];
      assert init[..k] == es[..k];
      RaisedIsFinal(avatarId, init, h, k);
    } else {
      assert es[..k] == es;
    }
  }

  /** `g` continued after `f`: lists and effects concatenated, raised as `g` says. */
  function Then(f: Filing, g: Filing): Filing {
    Filing(f.processed + g.processed, f.ignored + g.ignored, f.effects + g.effects, g.raised)
  }

  lemma StepThen(avatarId: string, f: Filing, g: Filing, e: Email, h: Handlers)
    ensures Step(avatarId, Then(f, g), e, h) == Then(f, Step(avatarId, g, e, h))
  {
    if !g.raised {
      var fate := FateOf(e, h);
      var p := if fate == Replied then [e.id] else [];
      var q := if fate == Ignored then [e.id] else [];
      var x := EmailEffects(avatarId, e, h);
      assert f.processed + g.processed + p == f.processed + (g.processed + p);
      assert f.ignored + g.ignored + q == f.ignored + (g.ignored + q);
      assert f.effects + g.effects + x == f.effects + (g.effects + x);
    }
  }

  /**
   * The loop over `a + b` is the loop over `a` followed by the loop over
   * `b`, when `a` does not raise: each list keeps the input order.
   */
  lemma {:induction false} FileEmailsAppend(avatarId: string, a: seq<Email>, b: seq<Email>, h: Handlers)
    requires !FileEmails(avatarId, a, h).raised
    ensures FileEmails(avatarId, a + b, h) == Then(FileEmails(avatarId, a, h), FileEmails(avatarId, b, h))
  {
    var fa := FileEmails(avatarId, a, h);
    if b == [] {
      assert a + b == a;
      assert Then(fa, Filing([], [], [], false)) == fa;
    } else {
      var b' := b[..|b| - 1];
      var e := b[|b| - 1];
      assert (a + b)[..|a + b| - 1] == a + b';
      assert (a + b)[|a + b| - 1] == e;
      FileEmailsAppend(avatarId, a, b', h);
      StepThen(avatarId, fa, FileEmails(avatarId, b', h), e, h);
    }
  }

  predicate DistinctIds(es: seq<Email>) {
    forall i, j :: 0 <= i < j < |es| ==> es[i].id != es[j].id
  }

  /**
   * When no email raises and the ids are distinct (IMAP message numbers),
   * an email's id is among the processed ids exactly when its reply was
   * sent, and among the ignored ids exactly when the filter rejected it; so
   * no id is in both lists, and an email whose reply failed to send is in
   * neither and is not flagged as read.
   */
  lemma {:induction false} FiledExactly(avatarId: string, es: seq<Email>, h: Handlers, k: nat)
    requires DistinctIds(es) && !FileEmails(avatarId, es, h).raised && k < |es|
    ensures es[k].id in FileEmails(avatarId, es, h).processed <==> FateOf(es[k], h) == Replied
    ensures es[k].id in FileEmails(avatarId, es, h).ignored <==> FateOf(es[k], h) == Ignored
  {
    var init := es[..|es| - 1];
    var f := FileEmails(avatarId, init, h);
    assert !f.raised;
    var e := es[|es| - 1];
    if k == |es| - 1 {
      FiledIdsFrom(avatarId, init, h);
      assert forall j :: 0 <= j < |init| ==> init[j].id != e.id;
    } else {
      assert DistinctIds(init) by {
        forall i, j | 0 <= i < j < |init| ensures init[i].id != init[j].id {
          assert init[i] == es[i] && init[j] == es[j];
        }
      }
      assert init[k] == es[k];
      FiledExactly(avatarId, init, h, k);
      assert es[k].id != e.id;
    }
  }

  /** Every filed id is the id of one of the emails. */
  lemma {:induction false} FiledIdsFrom(avatarId: string, es: seq<Email>, h: Handlers)
    ensures forall x :: x in FileEmails(avatarId, es, h).processed ==> exists j :: 0 <= j < |es| && es[j].id == x
    ensures forall x :: x in FileEmails(avatarId, es, h).ignored ==> exists j :: 0 <= j < |es| && es[j].id == x
  {
    if es != [] {
      var init := es[..|es| - 1];
      FiledIdsFrom(avatarId, init, h);
      forall x | x in FileEmails(avatarId, init, h).processed + FileEmails(avatarId, init, h).ignored
        ensures exists j :: 0 <= j < |es| && es[j].id == x
      {
        var j :| 0 <= j < |init| && init[j].id == x;
        assert es[j] == init[j];
      }
    }
  }

  /** The number of notices among some effects. */
  function Notices(effects: seq<Effect>): nat {
    if effects == [] then 0
    else Notices(effects[..|effects| - 1]) + (if effects[|effects| - 1].Publish? then 1 else 0)
  }

  lemma {:induction false} NoticesAppend(a: seq<Effect>, b: seq<Effect>)
    ensures Notices(a + b) == Notices(a) + Notices(b)
  {
    if b != [] {
      assert (a + b)[..|a + b| - 1] == a + b[..|b| - 1];
      NoticesAppend(a, b[..|b| - 1]);
    } else {
      assert a + b == a;
    }
  }

  /** Exactly one `email_ignored` notice is published per ignored email. */
  lemma {:induction false} OneNoticePerIgnored(avatarId: string, es: seq<Email>, h: Handlers)
    ensures Notices(FileEmails(avatarId, es, h).effects) == |FileEmails(avatarId, es, h).ignored|
  {
    if es != [] {
      var init := es[..|es| - 1];
      OneNoticePerIgnored(avatarId, init, h);
      var f := FileEmails(avatarId, init, h);
      var e := es[|es| - 1];
      if !f.raised {
        NoticesAppend(f.effects, EmailEffects(avatarId, e, h));
        var tail := EmailEffects(avatarId, e, h);
        assert Notices(tail) == (if FateOf(e, h) == Ignored then 1 else 0) by {
          if tail != [] {
            assert tail[..0] == [];
          }
        }
      }
    }
  }

  // ---------------------------------------------------------------------
  // The sweep over all avatars

  /**
   * One reading of the UTC clock: the weekday (Monday is 0) and the hour.
   * The sweep reads the clock afresh for every avatar it checks.
   */
  datatype Reading = Reading(day: int, hour: int)

  /** What the sweep does for one avatar at the given weekday and hour. */
  function AvatarSweep(a: Avatar, day: int, hour: int): seq<Effect> {
    if !Active(a.schedule, day, hour) || a.connector.None? then []
    else match a.connector.value.fetched
      case FetchFailed => [Fetch(a.id)]
      case Fetched(es) =>
        if es == [] then [Fetch(a.id), MarkRead(a.id, [])]
        else
          var f := FileEmails(a.id, es, a.connector.value.handlers);
          [Fetch(a.id)] + f.effects + (if f.raised then [] else [MarkRead(a.id, f.processed + f.ignored)])
  }

  /**
   * The sweep over the avatars in load order; `times[k]` is the clock reading
   * taken when the k-th avatar's schedule is checked.
   */
  function Sweep(avatars: seq<Avatar>, times: seq<Reading>): seq<Effect>
    requires |times| == |avatars|
  {
    if avatars == [] then []
    else
      var t := times[|times| - 1];
      Sweep(avatars[..|avatars| - 1], times[..|times| - 1]) + AvatarSweep(avatars[|avatars| - 1], t.day, t.hour)
  }

  /** One avatar's turn in `scheduled_email_check`. */
  method CheckAvatar(a: Avatar, day: int, hour: int) returns (effects: seq<Effect>)
    ensures effects == AvatarSweep(a, day, hour)
  {
    effects := [];
    var active := IsAvatarActive(a.schedule, day, hour);
    if !active || a.connector.None? {
      return;
    }
    var mailbox := a.connector.value;
    effects := [Fetch(a.id)];
    if mailbox.fetched.FetchFailed? {
      return;
    }
    var unread := mailbox.fetched.emails;
    if unread == [] {
      effects := effects + [MarkRead(a.id, [])];
      return;
    }
    var processed, ignored, handled, raised := ProcessEmails(a.id, unread, mailbox.handlers);
    effects := effects + handled;
    if !raised {
      effects := effects + [MarkRead(a.id, processed + ignored)];
    }
  }

  /**
   * `scheduled_email_check` over the avatars in load order, reading the
   * clock `times[i]` when avatar `i` comes up.
   */
  method ScheduledEmailCheck(avatars: seq<Avatar>, times: seq<Reading>) returns (effects: seq<Effect>)
    requires |times| == |avatars|
    ensures effects == Sweep(avatars, times)
  {
    effects := [];
    var i := 0;
    while i < |avatars|
      invariant 0 <= i <= |avatars|
      invariant effects == Sweep(avatars[..i], times[..i])
    {
      assert avatars[..i + 1][..i] == avatars[..i];
      assert times[..i + 1][..i] == times[..i];
      var turn := CheckAvatar(avatars[i], times[i].day, times[i].hour);
      effects := effects + turn;
      i := i + 1;
    }
    assert avatars[..i] == avatars;
    assert times[..i] == times;
  }

  /**
   * Only avatars that are active and have an email connector are fetched:
   * every `Fetch` in the sweep names such an avatar.
   */
  lemma {:induction false} OnlyActiveAvatarsFetched(avatars: seq<Avatar>, times: seq<Reading>, id: string)
    requires |times| == |avatars|
    requires Fetch(id) in Sweep(avatars, times)
    ensures exists k :: (0 <= k < |avatars| && avatars[k].id == id
                         && Active(avatars[k].schedule, times[k].day, times[k].hour) && avatars[k].connector.Some?)
  {
    var init := avatars[..|avatars| - 1];
    var initTimes := times[..|times| - 1];
    var a := avatars[|avatars| - 1];
    var t := times[|times| - 1];
    if Fetch(id) in Sweep(init, initTimes) {
      OnlyActiveAvatarsFetched(init, initTimes, id);
      var k :| (0 <= k < |init| && init[k].id == id
                && Active(init[k].schedule, initTimes[k].day, initTimes[k].hour) && init[k].connector.Some?);
      assert avatars[k] == init[k] && times[k] == initTimes[k];
    } else {
      assert Fetch(id) in AvatarSweep(a, t.day, t.hour);
      if a.connector.Some? && a.connector.value.fetched.Fetched? && a.connector.value.fetched.emails != [] {
        var f := FileEmails(a.id, a.connector.value.fetched.emails, a.connector.value.handlers);
        EffectsFetchFree(a.id, a.connector.value.fetched.emails, a.connector.value.handlers);
        assert Fetch(id) !in f.effects;
      }
      assert avatars[|avatars| - 1].id == id;
    }
  }

  /** Handling emails never fetches. */
  lemma {:induction false} EffectsFetchFree(avatarId: string, es: seq<Email>, h: Handlers)
    ensures forall x :: x in FileEmails(avatarId, es, h).effects ==> !x.Fetch?
  {
    if es != [] {
      EffectsFetchFree(avatarId, es[..|es| - 1], h);
    }
  }

  /**
   * For one avatar with unread mail: when no email raises, the ids flagged
   * as read are exactly the processed ids followed by the ignored ids; when
   * one raises, nothing is flagged and the connection is not logged out.
   */
  lemma MarkedReadAreFiled(a: Avatar, day: int, hour: int)
    requires Active(a.schedule, day, hour) && a.connector.Some?
    requires a.connector.value.fetched.Fetched? && a.connector.value.fetched.emails != []
    ensures var f := FileEmails(a.id, a.connector.value.fetched.emails, a.connector.value.handlers);
      var sweep := AvatarSweep(a, day, hour);
      && sweep[0] == Fetch(a.id)
      && (!f.raised ==> sweep[|sweep| - 1] == MarkRead(a.id, f.processed + f.ignored))
      && (f.raised ==> forall x :: x in sweep ==> !x.MarkRead?)
  {
    var f := FileEmails(a.id, a.connector.value.fetched.emails, a.connector.value.handlers);
    if f.raised {
      MarkReadFree(a.id, a.connector.value.fetched.emails, a.connector.value.handlers);
    }
  }

  /** Handling emails never flags anything as read. */
  lemma {:induction false} MarkReadFree(avatarId: string, es: seq<Email>, h: Handlers)
    ensures forall x :: x in FileEmails(avatarId, es, h).effects ==> !x.MarkRead?
  {
    if es != [] {
      MarkReadFree(avatarId, es[..|es| - 1], h);
    }
  }

  /**
   * A skipped avatar (inactive at its own clock reading, or with no email
   * connector) produces no effect at all.
   */
  lemma SkippedAvatarsAreSilent(avatars: seq<Avatar>, times: seq<Reading>, extra: Avatar, t: Reading)
    requires |times| == |avatars|
    requires !Active(extra.schedule, t.day, t.hour) || extra.connector.None?
    ensures Sweep(avatars + [extra], times + [t]) == Sweep(avatars, times)
  {
    assert (avatars + [extra])[..|avatars|] == avatars;
    assert (times + [t])[..|times|] == times;
  }

  /**
   * The clock is read per avatar: a sweep that starts inside an avatar's
   * window but reaches it after the window closed does not fetch its mail.
   */
  lemma LateReadingSkipsAvatar(earlier: seq<Avatar>, times: seq<Reading>, a: Avatar)
    requires |times| == |earlier|
    requires a.connector.Some?
    requires a.schedule == Some([("work", ActivityWindow(Some([0, 1, 2, 3, 4]), Some(9), Some(17)))])
    ensures Fetch(a.id) in Sweep(earlier + [a], times + [Reading(2, 16)])
    ensures Sweep(earlier + [a], times + [Reading(2, 17)]) == Sweep(earlier, times)
  {
    assert Covers(a.schedule.value[0].1, 2, 16);
    assert (earlier + [a])[..|earlier|] == earlier;
    assert (times + [Reading(2, 16)])[..|times|] == times;
    assert AvatarSweep(a, 2, 16)[0] == Fetch(a.id);
    SkippedAvatarsAreSilent(earlier, times, a, Reading(2, 17));
  }
}
