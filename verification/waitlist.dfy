/** The waitlist sign-up endpoint: the e-mail check, the normalisation of the
    submitted fields and the status answered for each way the request can go. */
module Waitlist {
  import opened Wrappers
  import opened Text

  /* ---------------- the e-mail check ---------------- */

  /** A character of the class `[^\s@]`. */
  predicate Plain(c: char) {
    !IsSpace(c) && c != '@'
  }

  predicate AllPlain(s: string) {
    forall k | 0 <= k < |s| :: Plain(s[k])
  }

  /** The language of `^[^\s@]+@[^\s@]+\.[^\s@]{2,}$`: a non-empty local part,
      one '@', and a domain free of white space and '@' holding a '.' with at
      least one character before it and two after it. The `i` flag changes
      nothing, as the pattern has no letters. */
  predicate EmailShape(s: string) {
    exists i | 0 < i < |s| ::
      && s[i] == '@'
      && AllPlain(s[..i])
      && AllPlain(s[i + 1..])
      && HasDot(s[i + 1..])
  }

  predicate HasDot(d: string) {
    exists p | 1 <= p && p + 3 <= |d| :: d[p] == '.'
  }

  /** Length of the run of `[^\s@]` characters at the start of `s`. */
  function PlainRun(s: string): (n: nat)
    ensures n <= |s| && AllPlain(s[..n])
    ensures n == |s| || !Plain(s[n])
  {
    if |s| > 0 && Plain(s[0]) then 1 + PlainRun(s[1..]) else 0
  }

  /** The first '.' at or after `from`. */
  function DotFrom(d: string, from: nat): (r: Option<nat>)
    ensures r.Some? ==> from <= r.value < |d| && d[r.value] == '.'
    ensures r.Some? ==> forall j | from <= j < r.value :: d[j] != '.'
    ensures r.None? ==> forall j | from <= j < |d| :: d[j] != '.'
    decreases |d| - from
  {
    if from >= |d| then None
    else if d[from] == '.' then Some(from)
    else DotFrom(d, from + 1)
  }

  /** `isValidEmail`, as a left-to-right scan: the local part, the '@', a domain
      made only of allowed characters, and its first '.' past the first
      character leaving at least two characters after it. */
  function IsValidEmail(s: string): bool {
    var n := PlainRun(s);
    && 0 < n < |s| && s[n] == '@'
    && var d := s[n + 1..];
      && PlainRun(d) == |d|
      && match DotFrom(d, 1) {
           case None => false
           case Some(p) => p + 3 <= |d|
         }
  }

  lemma {:induction false} PlainRunIs(s: string, n: nat)
    requires n <= |s| && AllPlain(s[..n])
    requires n == |s| || !Plain(s[n])
    ensures PlainRun(s) == n
  {
    if n > 0 {
      assert Plain(s[..n][0]);
      assert s[1..][..n - 1] == s[..n][1..];
      PlainRunIs(s[1..], n - 1);
    }
  }

  /** The scan accepts exactly the strings the pattern matches. */
  lemma EmailScanIsPattern(s: string)
    ensures IsValidEmail(s) <==> EmailShape(s)
  {
    var n := PlainRun(s);
    if IsValidEmail(s) {
      var d := s[n + 1..];
      var p := DotFrom(d, 1).value;
      assert HasDot(d) by { assert d[p] == '.'; }
      assert AllPlain(d) by { assert d[..|d|] == d; }
    }
    if EmailShape(s) {
      var i :| 0 < i < |s| && s[i] == '@' && AllPlain(s[..i]) && AllPlain(s[i + 1..]) && HasDot(s[i + 1..]);
      PlainRunIs(s, i);
      var d := s[i + 1..];
      PlainRunIs(d, |d|);
      var p :| 1 <= p && p + 3 <= |d| && d[p] == '.';
      assert DotFrom(d, 1).Some?;
    }
  }

  /** An accepted address has no white space and exactly one '@', with
      something before it. */
  lemma ValidEmailParts(s: string)
    requires IsValidEmail(s)
    ensures NoSpace(s)
    ensures exists i | 0 < i < |s| :: s[i] == '@' && forall j | 0 <= j < |s| && j != i :: s[j] != '@'
  {
    var n := PlainRun(s);
    var d := s[n + 1..];
    assert AllPlain(d) by { assert d[..|d|] == d; }
    forall j | 0 <= j < |s| && j != n
      ensures Plain(s[j])
    {
      if j > n {
        assert s[j] == d[j - n - 1];
      } else {
        assert s[j] == s[..n][j];
      }
    }
  }

  lemma AcceptsShortDomain(s: string)
    requires s == "a@b.co"
    ensures IsValidEmail(s)
  {
    assert PlainRun(s[2..]) == 4;
    assert DotFrom(s[2..], 1) == Some(1);
  }

  lemma RejectsOneLetterEnding(s: string)
    requires s == "a@b.c"
    ensures !IsValidEmail(s)
  {
    assert PlainRun(s) == 1;
    assert DotFrom(s[2..], 1) == Some(1);
  }

  lemma RejectsTwoAts(s: string)
    requires s == "a@@b.co"
    ensures !IsValidEmail(s)
  {
    assert PlainRun(s) == 1;
    assert PlainRun(s[2..]) == 0;
  }

  lemma RejectsSpace(s: string)
    requires s == "a b@c.de"
    ensures !IsValidEmail(s)
  {
    assert IsSpace(s[1]);
    assert PlainRun(s) == 1;
  }

  /* ---------------- the endpoint ---------------- */

  /** The string fields of the JSON body; a field that is missing or not a
      string is None. A body of `null` has all three None. */
  datatype Body = Body(name: Option<string>, email: Option<string>, source: Option<string>)

  /** The row written to the sign-up table; a None name is stored as null. */
  datatype Signup = Signup(name: Option<string>, email: string, source: string)

  /** How the storage request went: a response with `ok` set, one without, or
      a thrown `fetch`. */
  datatype Upstream = Stored | Refused | Unreachable

  datatype ErrorCode = NotConfigured | InvalidEmail | InsertFailed | InvalidRequest

  function CodeText(e: ErrorCode): string {
    match e
    case NotConfigured => "waitlist_not_configured"
    case InvalidEmail => "invalid_email"
    case InsertFailed => "waitlist_insert_failed"
    case InvalidRequest => "invalid_request"
  }

  /** The JSON answer: `{ ok: true }` or `{ error: <code> }`. */
  datatype Answer = OkTrue | Error(code: ErrorCode)

  datatype Response = Response(status: nat, answer: Answer)

  /** What a request did: the response and the row sent for storage, if any. */
  datatype Outcome = Outcome(response: Response, sent: Option<Signup>)

  const DefaultSource: string := "waitlist-landing"

  /** The submitted e-mail, trimmed and lowercased ("" when absent). */
  function EmailOf(b: Body): string {
    if b.email.Some? then Lower(Trim(b.email.value)) else []
  }

  /** The row built from a body whose e-mail passed the check. */
  function RowOf(b: Body): Signup {
    var name := if b.name.Some? then Trim(b.name.value) else [];
    Signup(if name == [] then None else Some(name), EmailOf(b),
           if b.source.Some? then b.source.value else DefaultSource)
  }

  /** `POST`: `url` and `key` are the two environment settings ("" when unset);
      `body` is None when the request body is not JSON; `upstream` is how the
      storage request went, consulted only once a row is sent. */
  function Post(url: string, key: string, body: Option<Body>, upstream: Upstream): Outcome {
    if url == [] || key == [] then Outcome(Response(500, Error(NotConfigured)), None)
    else if body.None? then Outcome(Response(400, Error(InvalidRequest)), None)
    else
      var email := EmailOf(body.value);
      if email == [] || !IsValidEmail(email) then Outcome(Response(400, Error(InvalidEmail)), None)
      else
        var row := RowOf(body.value);
        match upstream
        case Unreachable => Outcome(Response(400, Error(InvalidRequest)), Some(row))
        case Refused => Outcome(Response(500, Error(InsertFailed)), Some(row))
        case Stored => Outcome(Response(200, OkTrue), Some(row))
  }

  predicate Configured(url: string, key: string) {
    url != [] && key != []
  }

  /** Each answer and the exact circumstances that produce it; a row is sent
      exactly when the service is configured, the body parses and its e-mail
      passes the check. */
  lemma PostAnswers(url: string, key: string, body: Option<Body>, upstream: Upstream)
    ensures var r := Post(url, key, body, upstream);
      var valid := body.Some? && IsValidEmail(EmailOf(body.value));
      && (r.response.answer == Error(NotConfigured) <==> !Configured(url, key))
      && (r.response.answer == Error(InvalidEmail) <==> Configured(url, key) && body.Some? && !valid)
      && (r.response.answer == Error(InvalidRequest) <==>
            Configured(url, key) && (body.None? || (valid && upstream == Unreachable)))
      && (r.response.answer == Error(InsertFailed) <==> Configured(url, key) && valid && upstream == Refused)
      && (r.response.answer == OkTrue <==> Configured(url, key) && valid && upstream == Stored)
      && (r.sent.Some? <==> Configured(url, key) && valid)
      && r.response.status == (match r.response.answer
                               case OkTrue => 200
                               case Error(c) => if c in {NotConfigured, InsertFailed} then 500 else 400)
  {
    if body.Some? && EmailOf(body.value) == [] {
      assert PlainRun(EmailOf(body.value)) == 0;
    }
  }

  /** The stored row: a valid, trimmed, lower-case e-mail; a name that is null
      when none was given or it was blank, and otherwise trimmed; the source
      as sent, or the landing page's by default. */
  lemma SentRow(url: string, key: string, body: Option<Body>, upstream: Upstream)
    requires Post(url, key, body, upstream).sent.Some?
    ensures var row := Post(url, key, body, upstream).sent.value;
      var b := body.value;
      && IsValidEmail(row.email)
      && Lower(row.email) == row.email
      && b.email.Some? && row.email == Lower(Trim(b.email.value))
      && (row.name.None? <==> b.name.None? || AllSpace(b.name.value))
      && (row.name.Some? ==> row.name.value == Trim(b.name.value) && row.name.value != [] && Trim(row.name.value) == row.name.value)
      && (b.source.Some? ==> row.source == b.source.value)
      && (b.source.None? ==> row.source == DefaultSource)
  {
    var b := body.value;
    LowerIdempotent(Trim(b.email.value));
    if b.name.Some? {
      BlankIffAllSpace(b.name.value);
      TrimIdempotent(b.name.value);
    }
  }

  /** Submitting the stored e-mail again names the same row, so a repeated
      sign-up merges with the first. */
  lemma ResubmitSameEmail(e: string)
    ensures EmailOf(Body(None, Some(Lower(Trim(e))), None)) == Lower(Trim(e))
  {
    var t := Trim(e);
    LowerKeepsSpaces(t);
    TrimNoop(Lower(t));
    LowerIdempotent(t);
  }
}
