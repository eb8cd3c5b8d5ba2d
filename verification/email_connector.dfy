/** The email connector's local logic: choosing the body of a message and flagging emails as read. */
module EmailConnector {
  import opened Wrappers
  import opened Text

  /** One fetched unread email, as `fetch_updates` lists it. */
  datatype Email = Email(id: string, from: string, subject: string, body: string)

  // ---------------------------------------------------------------------
  // Body selection

  /**
   * One part visited by `msg.walk()`: its content type, its
   * Content-Disposition header if present, and its decoded payload (`Err`
   * when decoding raises).
   */
  datatype Part = Part(contentType: string, disposition: Option<string>, payload: Result<string>)

  /** A multipart message is the sequence of parts its walk visits; otherwise it has one payload. */
  datatype Message = Multipart(walk: seq<Part>) | Single(payload: Result<string>)

  /** `str(part.get("Content-Disposition"))`: a missing header reads as "None". */
  function DispositionText(d: Option<string>): string {
    match d
    case None => "None"
    case Some(text) => text
  }

  predicate IsAttachment(p: Part) {
    Contains(DispositionText(p.disposition), "attachment")
  }

  /** A part that can become the body of type `t`. */
  predicate Eligible(p: Part, t: string) {
    !IsAttachment(p) && p.contentType == t && p.payload.Ok?
  }

  /** The decoded text of the last eligible part of type `t`, or "" when there is none. */
  function LastOfType(parts: seq<Part>, t: string): string {
    if parts == [] then ""
    else if Eligible(parts[|parts| - 1], t) then parts[|parts| - 1].payload.value
    else LastOfType(parts[..|parts| - 1], t)
  }

  /** A non-empty plain body wins over the HTML body. */
  function Preferred(plain: string, html: string): (r: string)
    ensures plain != "" ==> r == plain
    ensures plain == "" ==> r == html
  {
    if plain != "" then plain else html
  }

  /**
   * `_extract_email_body`: `getText` is the HTML-to-text conversion applied to
   * the chosen body (plain text passes through it too). For a multipart
   * message the last plain and the last HTML part win, skipping attachments
   * and parts that fail to decode; a single payload that fails to decode
   * raises.
   */
  method ExtractEmailBody(msg: Message, getText: string -> string) returns (body: Result<string>)
    ensures msg.Multipart? ==>
      body == Ok(Strip(getText(Preferred(LastOfType(msg.walk, "text/plain"), LastOfType(msg.walk, "text/html")))))
    ensures msg.Single? && msg.payload.Ok? ==> body == Ok(Strip(getText(msg.payload.value)))
    ensures msg.Single? && msg.payload.Err? ==> body == Err(msg.payload.message)
    ensures (msg.Multipart? && getText("") == "" && LastOfType(msg.walk, "text/plain") == ""
             && LastOfType(msg.walk, "text/html") == "") ==> body == Ok("")
  {
    var plain := "";
    var html := "";
    if msg.Multipart? {
      var parts := msg.walk;
      var i := 0;
      while i < |parts|
        invariant 0 <= i <= |parts|
        invariant plain == LastOfType(parts[..i], "text/plain")
        invariant html == LastOfType(parts[..i], "text/html")
      {
        var part := parts[i];
        assert parts[..i + 1][..i] == parts[..i];
        if !Contains(DispositionText(part.disposition), "attachment") && part.payload.Ok? {
          if part.contentType == "text/plain" {
            plain := part.payload.value;
          } else if part.contentType == "text/html" {
            html := part.payload.value;
          }
        }
        i := i + 1;
      }
      assert parts[..i] == parts;
    } else {
      if msg.payload.Err? {
        return Err(msg.payload.message);
      }
      plain := msg.payload.value;
    }
    var chosen := "";
    if plain != "" {
      chosen := plain;
    } else if html != "" {
      chosen := html;
    }
    body := Ok(Strip(getText(chosen)));
  }

  /**
   * A part that cannot become the body of type `t` (an attachment, another
   * type, or one that fails to decode) changes nothing, wherever it stands.
   */
  lemma {:induction false} IneligiblePartIgnored(parts: seq<Part>, k: nat, q: Part, t: string)
    requires k <= |parts| && !Eligible(q, t)
    ensures LastOfType(parts[..k] + [q] + parts[k..], t) == LastOfType(parts, t)
    decreases |parts| - k
  {
    var with := parts[..k] + [q] + parts[k..];
    if k == |parts| {
      assert with[..|with| - 1] == parts;
    } else {
      var last := |parts| - 1;
      assert with[|with| - 1] == parts[last];
      assert with[..|with| - 1] == parts[..last][..k] + [q] + parts[..last][k..];
      IneligiblePartIgnored(parts[..last], k, q, t);
      assert parts[..last] == parts[..|parts| - 1];
    }
  }

  /** A later eligible part overrides everything before it. */
  lemma {:induction false} LaterPartWins(parts: seq<Part>, k: nat, t: string)
    requires k < |parts| && Eligible(parts[k], t)
    requires forall j :: k < j < |parts| ==> !Eligible(parts[j], t)
    ensures LastOfType(parts, t) == parts[k].payload.value
    decreases |parts|
  {
    if k < |parts| - 1 {
      assert parts[..|parts| - 1][k] == parts[k];
      LaterPartWins(parts[..|parts| - 1], k, t);
    }
  }

  // ---------------------------------------------------------------------
  // Flagging emails as read

  /** What `mark_emails_as_read` asks of the IMAP connection. */
  datatype ImapAction = StoreSeen(id: string) | Logout

  function StoreAll(ids: seq<string>): (r: seq<ImapAction>)
    ensures |r| == |ids| && forall j :: 0 <= j < |ids| ==> r[j] == StoreSeen(ids[j])
  {
    seq(|ids|, j requires 0 <= j < |ids| => StoreSeen(ids[j]))
  }

  /**
   * `mark_emails_as_read`: `connected` says the connection is not None and
   * `failsAt` is the index of a store command that raises, if any. An empty
   * list only logs out; a failing store stops the remaining ones but the
   * connection is still logged out; without a connection nothing is done.
   */
  method MarkEmailsAsRead(connected: bool, ids: seq<string>, failsAt: Option<nat>) returns (actions: seq<ImapAction>)
    ensures ids == [] ==> actions == (if connected then [Logout] else [])
    ensures ids != [] && !connected ==> actions == []
    ensures ids != [] && connected ==>
      var stop := if failsAt.Some? && failsAt.value < |ids| then failsAt.value else |ids|;
      actions == StoreAll(ids[..stop]) + [Logout]
  {
    actions := [];
    if ids == [] {
      if connected {
        actions := [Logout];
      }
      return;
    }
    if !connected {
      return;
    }
    var i := 0;
    while i < |ids|
      invariant 0 <= i <= |ids|
      invariant failsAt.Some? ==> i <= failsAt.value
      invariant actions == StoreAll(ids[..i])
    {
      if failsAt == Some(i) {
        break;
      }
      actions := actions + [StoreSeen(ids[i])];
      i := i + 1;
    }
    actions := actions + [Logout];
  }
}
