/**
 * The newsletter sender of `netlify/functions/send-newsletter.js`: excerpts cut from a post's
 * HTML, and the loop that mails every subscriber and counts what went out and what failed. The
 * mail service and the database are outside the model; each delivery's outcome is a parameter.
 */
module Newsletter {
  import opened Wrappers
  import opened Text

  // ---------------------------------------------------------------- tags

  /** No `<` is followed, anywhere later, by a `>`: nothing a tag pattern could match. */
  predicate NoTag(t: string) {
    forall i, j :: 0 <= i < j < |t| && t[i] == '<' ==> t[j] != '>'
  }

  /**
   * `.replace(/<[^>]*>/g, '')`: from each `<` up to the next `>` is removed; a `<` with no `>`
   * after it stays.
   */
  function StripTags(s: string): string
    decreases |s|
  {
    if |s| == 0 then ""
    else if s[0] == '<' then
      match IndexOf(s, ">")
      case Some(j) => StripTags(s[j + 1..])
      case None => [s[0]] + StripTags(s[1..])
    else [s[0]] + StripTags(s[1..])
  }

  /** Stripping keeps characters of its input, and never lengthens it. */
  lemma {:induction false} StripKeeps(s: string)
    ensures |StripTags(s)| <= |s|
    ensures forall c :: c in StripTags(s) ==> c in s
    decreases |s|
  {
    if |s| > 0 {
      if s[0] == '<' && IndexOf(s, ">").Some? {
        var j := IndexOf(s, ">").value;
        StripKeeps(s[j + 1..]);
      } else {
        StripKeeps(s[1..]);
      }
    }
  }

  lemma NoCloseAfter(s: string)
    requires |s| > 0 && IndexOf(s, ">").None?
    ensures '>' !in s[1..]
  {
  }

  /** What stripping leaves holds no tag. */
  lemma {:induction false} StripNoTag(s: string)
    ensures NoTag(StripTags(s))
    decreases |s|
  {
    if |s| > 0 {
      if s[0] == '<' {
        match IndexOf(s, ">")
        case Some(j) =>
          StripNoTag(s[j + 1..]);
        case None =>
          NoCloseAfter(s);
          StripKeeps(s[1..]);
          StripNoTag(s[1..]);
          var r := StripTags(s[1..]);
          assert '>' !in r;
          assert forall k :: 0 <= k < |r| ==> ([s[0]] + r)[k + 1] == r[k];
      } else {
        StripNoTag(s[1..]);
        var r := StripTags(s[1..]);
        assert forall k :: 0 <= k < |r| ==> ([s[0]] + r)[k + 1] == r[k];
      }
    }
  }

  /** Text without a tag comes through unchanged. */
  lemma {:induction false} StripPlain(t: string)
    requires NoTag(t)
    ensures StripTags(t) == t
    decreases |t|
  {
    if |t| > 0 {
      assert NoTag(t[1..]);
      if t[0] == '<' {
        assert forall j :: 0 <= j < |t| ==> t[j] != '>';
        assert IndexOf(t, ">").None?;
      }
      StripPlain(t[1..]);
    }
  }

  /** Stripping twice strips nothing more. */
  lemma StripIdempotent(s: string)
    ensures StripTags(StripTags(s)) == StripTags(s)
  {
    StripNoTag(s);
    StripPlain(StripTags(s));
  }

  // ---------------------------------------------------------------- excerpts

  const HtmlExcerptLength: nat := 300
  const TextExcerptLength: nat := 200

  /**
   * The first `maxLength` characters, cut back to before their last space, then `...`. With no
   * space among them `lastIndexOf` gives -1 and `substring(0, -1)` is empty.
   */
  function Truncate(t: string, maxLength: nat): (r: string)
    requires maxLength <= |t|
    ensures |r| <= maxLength + 3 && EndsWith(r, "...")
    ensures t[..|r| - 3] == r[..|r| - 3]
  {
    var e := t[..maxLength];
    var last := LastIndexOf(e, ' ');
    var cut := if last < 0 then 0 else last;
    e[..cut] + "..."
  }

  /** Where the cut falls: right before the last space of the first `maxLength` characters. */
  lemma TruncateAtLastSpace(t: string, maxLength: nat)
    requires maxLength <= |t|
    ensures var n := |Truncate(t, maxLength)| - 3;
      (n > 0 ==> n < maxLength && t[n] == ' ')
      && forall k :: n < k < maxLength ==> t[k] != ' '
  {
    var e := t[..maxLength];
    var last := LastIndexOf(e, ' ');
    assert forall k :: last < k < maxLength ==> e[k] == t[k];
  }

  /** With no space among the first `maxLength` characters the excerpt is just `...`. */
  lemma TruncateNoSpace(t: string, maxLength: nat)
    requires maxLength <= |t| && forall k :: 0 <= k < maxLength ==> t[k] != ' '
    ensures Truncate(t, maxLength) == "..."
  {
    var e := t[..maxLength];
    assert forall k :: 0 <= k < maxLength ==> e[k] == t[k];
  }

  /** `createExcerpt`: the HTML itself when its text is short enough, else a cut of the text. */
  function CreateExcerpt(content: string, maxLength: nat): (r: string)
    ensures |StripTags(content)| <= maxLength ==> r == content
    ensures |StripTags(content)| > maxLength ==> r == Truncate(StripTags(content), maxLength)
  {
    var text := StripTags(content);
    if |text| <= maxLength then content else Truncate(text, maxLength)
  }

  /** `createTextExcerpt`: the text when short enough, else a cut of it. */
  function CreateTextExcerpt(content: string, maxLength: nat): (r: string)
    ensures |r| <= maxLength + 3
    ensures |StripTags(content)| <= maxLength ==> r == StripTags(content)
    ensures |StripTags(content)| > maxLength ==> r == Truncate(StripTags(content), maxLength)
  {
    var text := StripTags(content);
    if |text| <= maxLength then text else Truncate(text, maxLength)
  }

  /** A text excerpt never carries a tag. */
  lemma TextExcerptNoTag(content: string, maxLength: nat)
    ensures NoTag(CreateTextExcerpt(content, maxLength))
  {
    var text := StripTags(content);
    StripNoTag(content);
    if |text| > maxLength {
      var r := Truncate(text, maxLength);
      var n := |r| - 3;
      assert r == text[..n] + "...";
      forall i, j | 0 <= i < j < |r| && r[i] == '<'
        ensures r[j] != '>'
      {
        assert i < n && r[i] == text[i];
        if j < n {
          assert r[j] == text[j];
        }
      }
    }
  }

  /** When the HTML is cut, the excerpt is the short form the text excerpt would take. */
  lemma ExcerptsAgree(content: string, maxLength: nat)
    requires |StripTags(content)| > maxLength
    ensures CreateExcerpt(content, maxLength) == CreateTextExcerpt(content, maxLength)
  {
  }

  // ---------------------------------------------------------------- sending

  datatype Subscriber = Subscriber(email: string)

  /** One message as handed to the mail service. */
  datatype Mail = Mail(to: string, subject: string, html: string, text: string)

  const Placeholder: string := "{{EMAIL}}"

  /** `.replace(/{{EMAIL}}/g, email)`. */
  function Personalize(body: string, email: string): string {
    ReplaceAll(body, Placeholder, email)
  }

  /** Text before the first placeholder is kept, the placeholder becomes the address, and the
      rest is personalised in turn. */
  lemma PersonalizeAt(a: string, b: string, email: string)
    requires '{' !in a
    ensures Personalize(a + Placeholder + b, email) == a + email + Personalize(b, email)
  {
    ReplaceAllPlain(a, Placeholder + b, Placeholder, email);
    assert a + Placeholder + b == a + (Placeholder + b);
    var t := Placeholder + b;
    assert t[..|Placeholder|] == Placeholder;
    ReplaceAllAt(t, Placeholder, email);
    assert t[|Placeholder|..] == b;
  }

  /** A body without the placeholder is the same for everyone. */
  lemma PersonalizeAbsent(body: string, email: string)
    requires !Contains(body, Placeholder)
    ensures Personalize(body, email) == body
  {
    ReplaceAllAbsent(body, Placeholder, email);
  }

  function MailFor(s: Subscriber, subject: string, htmlBody: string, textBody: string): Mail {
    Mail(s.email, subject, Personalize(htmlBody, s.email), Personalize(textBody, s.email))
  }

  /** How many deliveries went through. */
  function CountTrue(outcomes: seq<bool>): (n: nat)
    ensures n <= |outcomes|
  {
    if |outcomes| == 0 then 0
    else CountTrue(outcomes[..|outcomes| - 1]) + (if outcomes[|outcomes| - 1] then 1 else 0)
  }

  lemma CountAll(outcomes: seq<bool>)
    requires forall i :: 0 <= i < |outcomes| ==> outcomes[i]
    ensures CountTrue(outcomes) == |outcomes|
  {
    if |outcomes| > 0 {
      CountAll(outcomes[..|outcomes| - 1]);
    }
  }

  lemma CountNone(outcomes: seq<bool>)
    requires forall i :: 0 <= i < |outcomes| ==> !outcomes[i]
    ensures CountTrue(outcomes) == 0
  {
    if |outcomes| > 0 {
      CountNone(outcomes[..|outcomes| - 1]);
    }
  }

  /**
   * The loop of `sendWithResend` and `sendWithSendGrid`: one message per subscriber, and each
   * outcome adds to exactly one of the two counts. `delivered[i]` says whether the service
   * accepted the i-th message; a thrown error counts as a failure like a refusal.
   */
  method SendAll(subscribers: seq<Subscriber>, subject: string, htmlBody: string, textBody: string,
                 delivered: seq<bool>)
    returns (sent: nat, failed: nat, mails: seq<Mail>)
    requires |delivered| == |subscribers|
    ensures sent + failed == |subscribers|
    ensures sent == CountTrue(delivered)
    ensures |mails| == |subscribers|
    ensures forall i :: 0 <= i < |mails| ==> mails[i] == MailFor(subscribers[i], subject, htmlBody, textBody)
  {
    sent, failed, mails := 0, 0, [];
    for i := 0 to |subscribers|
      invariant sent + failed == i
      invariant sent == CountTrue(delivered[..i])
      invariant |mails| == i
      invariant forall k :: 0 <= k < i ==> mails[k] == MailFor(subscribers[k], subject, htmlBody, textBody)
    {
      mails := mails + [MailFor(subscribers[i], subject, htmlBody, textBody)];
      assert delivered[..i + 1][..i] == delivered[..i];
      if delivered[i] {
        sent := sent + 1;
      } else {
        failed := failed + 1;
      }
    }
    assert delivered[..|subscribers|] == delivered;
  }

  const ResendPlaceholderKey: string := "YOUR_RESEND_API_KEY_HERE"
  const ResendKeyMissing: string := "Please configure your Resend API key in Netlify environment variables"
  const SendGridKeyMissing: string := "SendGrid API key not configured"

  /** `process.env.RESEND_API_KEY || 'YOUR_RESEND_API_KEY_HERE'`. */
  function ResendKey(env: Option<string>): (k: string)
    ensures k != ""
    ensures env.Some? && env.value != "" ==> k == env.value
  {
    if env.Some? && env.value != "" then env.value else ResendPlaceholderKey
  }

  /** The Resend key is usable unless it is missing, empty or still the placeholder. */
  lemma ResendKeyUsable(env: Option<string>)
    ensures ResendKey(env) != ResendPlaceholderKey
      <==> env.Some? && env.value != "" && env.value != ResendPlaceholderKey
  {
  }

  /** What a sender returns, or the error it throws before sending anything. */
  datatype Sending = Refused(error: string) | Done(sent: nat, failed: nat)

  /** `sendWithResend`: refuses to start without a real key, then mails everyone. */
  method SendWithResend(env: Option<string>, subscribers: seq<Subscriber>, subject: string,
                        htmlBody: string, textBody: string, delivered: seq<bool>)
    returns (r: Sending, mails: seq<Mail>)
    requires |delivered| == |subscribers|
    ensures ResendKey(env) == ResendPlaceholderKey ==> r == Refused(ResendKeyMissing) && mails == []
    ensures ResendKey(env) != ResendPlaceholderKey ==>
      r == Done(CountTrue(delivered), |subscribers| - CountTrue(delivered))
      && |mails| == |subscribers|
      && forall i :: 0 <= i < |mails| ==> mails[i] == MailFor(subscribers[i], subject, htmlBody, textBody)
  {
    var key := ResendKey(env);
    if key == "" || key == ResendPlaceholderKey {
      return Refused(ResendKeyMissing), [];
    }
    var sent, failed;
    sent, failed, mails := SendAll(subscribers, subject, htmlBody, textBody, delivered);
    r := Done(sent, failed);
  }

  /** `sendWithSendGrid`: refuses to start without a key, then mails everyone. */
  method SendWithSendGrid(env: Option<string>, subscribers: seq<Subscriber>, subject: string,
                          htmlBody: string, textBody: string, delivered: seq<bool>)
    returns (r: Sending, mails: seq<Mail>)
    requires |delivered| == |subscribers|
    ensures (env.None? || env.value == "") ==> r == Refused(SendGridKeyMissing) && mails == []
    ensures env.Some? && env.value != "" ==>
      r == Done(CountTrue(delivered), |subscribers| - CountTrue(delivered))
      && |mails| == |subscribers|
      && forall i :: 0 <= i < |mails| ==> mails[i] == MailFor(subscribers[i], subject, htmlBody, textBody)
  {
    if env.None? || env.value == "" {
      return Refused(SendGridKeyMissing), [];
    }
    var sent, failed;
    sent, failed, mails := SendAll(subscribers, subject, htmlBody, textBody, delivered);
    r := Done(sent, failed);
  }

  // ---------------------------------------------------------------- the handler

  /** The request body: the send record's id, the post's title and the subscribers. */
  datatype NewsletterRequest = NewsletterRequest(newsletterId: string, title: string, subscribers: seq<Subscriber>)

  datatype ReplyBody =
    | Error(error: string)
    | NotParsed                             // the JSON parser's own message
    | Totals(sent: nat, failed: nat, total: nat)

  datatype Reply = Reply(status: int, body: ReplyBody)

  const CredentialsMissing: string := "Supabase credentials not configured"

  /**
   * The handler with Resend as the sender. `request` is `None` when the body does not parse,
   * `databaseConfigured` says whether both database settings are set, and the HTML and text
   * bodies stand for the email template built from the post.
   */
  method NewsletterHandler(httpMethod: string, request: Option<NewsletterRequest>, databaseConfigured: bool,
                           resendEnv: Option<string>, htmlBody: string, textBody: string, delivered: seq<bool>)
    returns (reply: Reply, mails: seq<Mail>)
    requires request.Some? ==> |delivered| == |request.value.subscribers|
    ensures httpMethod != "POST" ==> reply == Reply(405, Error("Method not allowed")) && mails == []
    ensures httpMethod == "POST" && request.None? ==> reply == Reply(500, NotParsed) && mails == []
    ensures httpMethod == "POST" && request.Some? && !databaseConfigured ==>
      reply == Reply(500, Error(CredentialsMissing)) && mails == []
    ensures (httpMethod == "POST" && request.Some? && databaseConfigured
             && ResendKey(resendEnv) == ResendPlaceholderKey) ==>
      reply == Reply(500, Error(ResendKeyMissing)) && mails == []
    ensures (httpMethod == "POST" && request.Some? && databaseConfigured
             && ResendKey(resendEnv) != ResendPlaceholderKey) ==>
      var n := |request.value.subscribers|;
      reply == Reply(200, Totals(CountTrue(delivered), n - CountTrue(delivered), n))
      && |mails| == n
    ensures reply.body.Totals? ==> reply.body.sent + reply.body.failed == reply.body.total
  {
    if httpMethod != "POST" {
      return Reply(405, Error("Method not allowed")), [];
    }
    if request.None? {
      return Reply(500, NotParsed), [];
    }
    if !databaseConfigured {
      return Reply(500, Error(CredentialsMissing)), [];
    }
    var req := request.value;
    var r;
    r, mails := SendWithResend(resendEnv, req.subscribers, req.title, htmlBody, textBody, delivered);
    match r
    case Refused(e) =>
      reply := Reply(500, Error(e));
    case Done(sent, failed) =>
      reply := Reply(200, Totals(sent, failed, |req.subscribers|));
  }
}
