/**
 * What both implementations share about the mail side: the decision how to
 * obtain an OAuth credential, the message `create_message` builds, and the
 * two outside parties the command talks to, each recording the calls it
 * receives — the OAuth environment (token file, token refresh, interactive
 * authorization) and the Gmail API (profile lookup, send).
 */
module Transport {
  import opened Wrappers
  import opened Text
  import opened TrelloCard

  // ---------------------------------------------------------------------------
  // Credential acquisition

  /** A cached OAuth credential, as far as the acquisition decision looks at it. */
  datatype Credential = Credential(valid: bool, expired: bool, hasRefreshToken: bool)

  /** The three ways to obtain the credential the Gmail service is built with. */
  datatype AuthPath = UseCached | RefreshCached | RunFlow

  function Decide(cached: Option<Credential>): AuthPath
  {
    if cached.Some? && cached.value.valid then UseCached
    else if cached.Some? && cached.value.expired && cached.value.hasRefreshToken then RefreshCached
    else RunFlow
  }

  /** A call into the OAuth library or onto the token file. */
  datatype AuthEffect = Refresh | RunLocalServer | SaveToken(credential: Credential)

  /** What acquiring a credential does: the effects in order, the credential or the error, the token file afterwards. */
  datatype Acquisition = Acquisition(effects: seq<AuthEffect>, credential: Result<Credential, Error>, tokenFile: Option<Credential>)

  /**
   * Acquiring a credential from the cached one (`tokenFile`), given what the
   * refresh call and the interactive flow would return (None when they raise).
   */
  function Acquire(tokenFile: Option<Credential>, refreshed: Option<Credential>, authorized: Option<Credential>): Acquisition
  {
    match Decide(tokenFile)
    case UseCached =>
      Acquisition([], Success(tokenFile.value), tokenFile)
    case RefreshCached =>
      if refreshed.None? then Acquisition([Refresh], Failure(RefreshRejected), tokenFile)
      else Acquisition([Refresh, SaveToken(refreshed.value)], Success(refreshed.value), refreshed)
    case RunFlow =>
      if authorized.None? then Acquisition([RunLocalServer], Failure(AuthorizationFailed), tokenFile)
      else Acquisition([RunLocalServer, SaveToken(authorized.value)], Success(authorized.value), authorized)
  }

  predicate SavesToken(effects: seq<AuthEffect>)
  {
    exists k :: 0 <= k < |effects| && effects[k].SaveToken?
  }

  /** A cached, valid credential is used as it is: no refresh, no flow, no write. */
  lemma ValidCredentialReused(tokenFile: Option<Credential>, refreshed: Option<Credential>, authorized: Option<Credential>)
    requires tokenFile.Some? && tokenFile.value.valid
    ensures var a := Acquire(tokenFile, refreshed, authorized);
      a.effects == [] && a.credential == Success(tokenFile.value) && a.tokenFile == tokenFile
  {
  }

  /** A cached, invalid, expired credential with a refresh token is refreshed exactly once and no flow runs. */
  lemma ExpiredCredentialRefreshed(tokenFile: Option<Credential>, refreshed: Option<Credential>, authorized: Option<Credential>)
    requires tokenFile.Some? && !tokenFile.value.valid
    requires tokenFile.value.expired && tokenFile.value.hasRefreshToken
    ensures var a := Acquire(tokenFile, refreshed, authorized);
      multiset(a.effects)[Refresh] == 1 && RunLocalServer !in a.effects &&
      (a.credential.Success? <==> refreshed.Some?) &&
      (refreshed.Some? ==> a.credential.value == refreshed.value)
  {
  }

  /** Without a cached credential, or with an invalid one that cannot be refreshed, the interactive flow runs once and first. */
  lemma UnusableCredentialAuthorizes(tokenFile: Option<Credential>, refreshed: Option<Credential>, authorized: Option<Credential>)
    requires tokenFile.None? || (!tokenFile.value.valid && !(tokenFile.value.expired && tokenFile.value.hasRefreshToken))
    ensures var a := Acquire(tokenFile, refreshed, authorized);
      |a.effects| > 0 && a.effects[0] == RunLocalServer && multiset(a.effects)[RunLocalServer] == 1 &&
      Refresh !in a.effects &&
      (a.credential.Success? <==> authorized.Some?) &&
      (authorized.Some? ==> a.credential.value == authorized.value)
  {
  }

  /**
   * The token file is rewritten exactly when the cached credential was missing
   * or invalid and a new one was obtained; afterwards it holds the credential in
   * use, and after a failure it is as it was.
   */
  lemma TokenRewrittenIff(tokenFile: Option<Credential>, refreshed: Option<Credential>, authorized: Option<Credential>)
    ensures var a := Acquire(tokenFile, refreshed, authorized);
      (SavesToken(a.effects) <==> (tokenFile.None? || !tokenFile.value.valid) && a.credential.Success?) &&
      (SavesToken(a.effects) ==> a.effects[|a.effects| - 1] == SaveToken(a.credential.value)) &&
      (a.credential.Success? ==> a.tokenFile == Some(a.credential.value)) &&
      (a.credential.Failure? ==> a.tokenFile == tokenFile)
  {
    var a := Acquire(tokenFile, refreshed, authorized);
    if a.credential.Success? && Decide(tokenFile) != UseCached {
      assert a.effects[1].SaveToken?;
    } else {
      assert forall k :: 0 <= k < |a.effects| ==> !a.effects[k].SaveToken?;
    }
  }

  /**
   * The OAuth side of the outside world: the token file (`token.pickle`), and
   * what the refresh call and the interactive authorization flow return (None
   * when they raise). Every call is recorded in `log`.
   */
  class OAuthEnvironment {
    var tokenFile: Option<Credential>
    const refreshResponse: Option<Credential>
    const flowResponse: Option<Credential>
    var log: seq<AuthEffect>

    constructor(tokenFile: Option<Credential>, refreshResponse: Option<Credential>, flowResponse: Option<Credential>)
      ensures this.tokenFile == tokenFile && this.refreshResponse == refreshResponse
      ensures this.flowResponse == flowResponse && log == []
    {
      this.tokenFile := tokenFile;
      this.refreshResponse := refreshResponse;
      this.flowResponse := flowResponse;
      log := [];
    }

    /** `creds.refresh(Request())`. */
    method Refresh() returns (refreshed: Option<Credential>)
      modifies this`log
      ensures log == old(log) + [AuthEffect.Refresh] && refreshed == refreshResponse
    {
      log := log + [AuthEffect.Refresh];
      refreshed := refreshResponse;
    }

    /** `InstalledAppFlow.from_client_secrets_file(...).run_local_server(port=0)`. */
    method RunLocalServer() returns (authorized: Option<Credential>)
      modifies this`log
      ensures log == old(log) + [AuthEffect.RunLocalServer] && authorized == flowResponse
    {
      log := log + [AuthEffect.RunLocalServer];
      authorized := flowResponse;
    }

    /** `pickle.dump(creds, token)` onto the token file. */
    method SaveToken(credential: Credential)
      modifies this`log, this`tokenFile
      ensures log == old(log) + [AuthEffect.SaveToken(credential)] && tokenFile == Some(credential)
    {
      log := log + [AuthEffect.SaveToken(credential)];
      tokenFile := Some(credential);
    }
  }

  // ---------------------------------------------------------------------------
  // The message

  /** A plain-text MIME message: its headers in the order they are set, and its body. */
  datatype MimeText = MimeText(headers: seq<(string, string)>, body: string)

  /** The request body `{'raw': ...}`; the MIME bytes and their base64url encoding are kept abstract as the message itself. */
  datatype Outbound = Outbound(raw: MimeText)

  /** The value of the first header called `name`. */
  function Lookup(headers: seq<(string, string)>, name: string): Option<string>
  {
    if headers == [] then None
    else if headers[0].0 == name then Some(headers[0].1)
    else Lookup(headers[1..], name)
  }

  /** Python truthiness of the `cc` argument: not None and not the empty string. */
  predicate Truthy(cc: Option<string>)
  {
    cc.Some? && cc.value != ""
  }

  /**
   * `create_message`: To, From and Subject from the arguments, the text as
   * body, and a Cc header only when `cc` is truthy.
   */
  function CreateMessage(sender: string, to: string, subject: string, messageText: string, cc: Option<string>): (m: Outbound)
    ensures Lookup(m.raw.headers, "to") == Some(to)
    ensures Lookup(m.raw.headers, "from") == Some(sender)
    ensures Lookup(m.raw.headers, "subject") == Some(subject)
    ensures Lookup(m.raw.headers, "cc") == if Truthy(cc) then cc else None
    ensures |m.raw.headers| == if Truthy(cc) then 4 else 3
    ensures m.raw.body == messageText
  {
    var headers := [("to", to), ("from", sender), ("subject", subject)];
    var all := if Truthy(cc) then headers + [("cc", cc.value)] else headers;
    assert all[1..][1..][1..] == if Truthy(cc) then [("cc", cc.value)] else [];
    assert Lookup(all[1..][1..], "subject") == Some(subject);
    assert Lookup(all[1..][1..], "cc") == Lookup(all[1..][1..][1..], "cc");
    Outbound(MimeText(all, messageText))
  }

  /** The message that creates the card: to the board, the formatted subject, the description, the CC members. */
  function CardMessage(sender: string, config: Config, details: CardDetails): Outbound
  {
    CreateMessage(sender, config.boardEmail, FormatSubject(details.title, details.labels),
                  details.description, CcHeader(details.ccMembers))
  }

  /**
   * The card message goes to the board address, from the sender, with the
   * formatted subject and the description as body; it carries a Cc header
   * exactly when one non-empty member was selected, and then names that member.
   */
  lemma CardMessageHeaders(sender: string, config: Config, details: CardDetails)
    requires |details.ccMembers| <= 1
    ensures var m := CardMessage(sender, config, details);
      Lookup(m.raw.headers, "to") == Some(config.boardEmail) &&
      Lookup(m.raw.headers, "from") == Some(sender) &&
      Lookup(m.raw.headers, "subject") == Some(FormatSubject(details.title, details.labels)) &&
      m.raw.body == details.description &&
      (Lookup(m.raw.headers, "cc").Some? <==> |details.ccMembers| == 1 && details.ccMembers[0] != "") &&
      (Lookup(m.raw.headers, "cc").Some? ==> Lookup(m.raw.headers, "cc").value == details.ccMembers[0])
  {
  }

  /**
   * One run end to end: label 1 of {"Bug": "#bug"}, the description "desc"
   * ended by two blank lines, CC member 1 of ["alice@x.com"].
   */
  lemma EndToEndExample()
    ensures "1" in MenuChoices(1)
    ensures var config := Config("board@boards.trello.com", [("Bug", "#bug")], ["alice@x.com"]);
      var details := CardDetailsSpec(config, "Fix bug", "1", ["desc", "", ""], "1");
      details == Success(CardDetails("Fix bug", ["#bug"], "desc", ["alice@x.com"])) &&
      CardMessage("me@x.com", config, details.value) ==
        CreateMessage("me@x.com", "board@boards.trello.com", "Fix bug #bug", "desc", Some("alice@x.com"))
  {
    var config := Config("board@boards.trello.com", [("Bug", "#bug")], ["alice@x.com"]);
    assert "1" == NatToDecimal(1);
    assert MenuChoices(1)[0] == "1";
    MenuPickNth(config.labels, 0);
    MenuPickNth(config.ccMembers, 0);
    assert ReadDescriptionSpec(["desc", "", ""]) == Success(Reading("desc", 3)) by {
      assert ["desc", "", ""][..2][..1] == ["desc"];
    }
    var details := CardDetailsSpec(config, "Fix bug", "1", ["desc", "", ""], "1");
    assert details == Success(CardDetails("Fix bug", ["#bug"], "desc", ["alice@x.com"]));
    assert FormatSubject("Fix bug", ["#bug"]) == "Fix bug #bug";
  }

  // ---------------------------------------------------------------------------
  // The Gmail API

  /** A call to the Gmail API. */
  datatype ApiCall = GetProfileCall | SendCall(message: Outbound)

  /**
   * The Gmail API for the authenticated user: the address `getProfile`
   * returns (None when it raises) and whether `send` succeeds. Every call is
   * recorded in `calls`.
   */
  class MailApi {
    const profileAddress: Option<string>
    const acceptsSend: bool
    var calls: seq<ApiCall>

    constructor(profileAddress: Option<string>, acceptsSend: bool)
      ensures this.profileAddress == profileAddress && this.acceptsSend == acceptsSend && calls == []
    {
      this.profileAddress := profileAddress;
      this.acceptsSend := acceptsSend;
      calls := [];
    }

    /** `users().getProfile(userId='me').execute()['emailAddress']`. */
    method GetProfile() returns (address: Option<string>)
      modifies this
      ensures calls == old(calls) + [GetProfileCall] && address == profileAddress
    {
      calls := calls + [GetProfileCall];
      address := profileAddress;
    }

    /** `users().messages().send(userId='me', body=message).execute()`. */
    method Send(message: Outbound) returns (sent: bool)
      modifies this
      ensures calls == old(calls) + [SendCall(message)] && sent == acceptsSend
    {
      calls := calls + [SendCall(message)];
      sent := acceptsSend;
    }
  }
}
