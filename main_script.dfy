/**
 * main.py: the stand-alone script. Its `new` command prompts for the card,
 * reads the description line by line, asks for confirmation, and only then
 * authenticates, looks up the sender's address and sends the message.
 */
module MainScript {
  import opened Wrappers
  import opened TrelloCard
  import opened Transport

  /** `get_gmail_service`: the credential the Gmail service is built with, obtained as `Acquire` states. */
  method GetGmailService(env: OAuthEnvironment) returns (credential: Result<Credential, Error>)
    modifies env
    ensures var a := Acquire(old(env.tokenFile), env.refreshResponse, env.flowResponse);
      credential == a.credential && env.log == old(env.log) + a.effects && env.tokenFile == a.tokenFile
  {
    var creds := env.tokenFile;
    if creds.None? || !creds.value.valid {
      if creds.Some? && creds.value.expired && creds.value.hasRefreshToken {
        creds := env.Refresh();
        if creds.None? {
          return Failure(RefreshRejected);
        }
      } else {
        creds := env.RunLocalServer();
        if creds.None? {
          return Failure(AuthorizationFailed);
        }
      }
      env.SaveToken(creds.value);
    }
    return Success(creds.value);
  }

  /**
   * The `new` command. The prompt answers are parameters; `terminal` holds the
   * lines `input()` returns, in order. Like every prompt of the command, the
   * description is read outside its exception handler, so running out of
   * terminal lines is not reported but propagates. Declining touches neither the OAuth side nor the
   * Gmail API; accepting acquires a credential, looks up the sender and sends
   * the card message once, each step only if the previous one succeeded.
   */
  method New(config: Config, title: string, labelChoice: string, terminal: seq<string>, ccChoice: string,
             confirm: bool, env: OAuthEnvironment, api: MailApi) returns (outcome: Outcome)
    requires AnswersOffered(config, labelChoice, ccChoice)
    modifies env, api
    ensures var details := CardDetailsSpec(config, title, labelChoice, terminal, ccChoice);
      details.Failure? ==> outcome == Uncaught(EndOfInput)
    ensures var details := CardDetailsSpec(config, title, labelChoice, terminal, ccChoice);
      details.Success? && !confirm ==> outcome == Cancelled
    ensures var details := CardDetailsSpec(config, title, labelChoice, terminal, ccChoice);
      !(details.Success? && confirm) ==>
        env.log == old(env.log) && env.tokenFile == old(env.tokenFile) && api.calls == old(api.calls)
    ensures var details := CardDetailsSpec(config, title, labelChoice, terminal, ccChoice);
      var a := Acquire(old(env.tokenFile), env.refreshResponse, env.flowResponse);
      details.Success? && confirm ==>
        env.log == old(env.log) + a.effects && env.tokenFile == a.tokenFile &&
        (a.credential.Failure? ==> outcome == Reported(a.credential.error) && api.calls == old(api.calls)) &&
        (a.credential.Success? && api.profileAddress.None? ==>
          outcome == Reported(ProfileUnavailable) && api.calls == old(api.calls) + [GetProfileCall]) &&
        (a.credential.Success? && api.profileAddress.Some? ==>
          api.calls == old(api.calls) + [GetProfileCall, SendCall(CardMessage(api.profileAddress.value, config, details.value))] &&
          outcome == if api.acceptsSend then Created else Reported(SendRejected))
  {
    var (_, labelValue) := MenuPick(config.labels, labelChoice);
    var selectedLabels := [labelValue];

    var descriptionLines: seq<string> := [];
    var cursor: nat := 0;
    while true
      invariant cursor <= |terminal|
      invariant descriptionLines == terminal[..cursor]
      invariant WellCollected(descriptionLines)
      decreases |terminal| - cursor
    {
      if cursor == |terminal| {
        WellCollectedIffNoEnd(terminal, cursor);
        return Uncaught(EndOfInput);
      }
      var line := terminal[cursor];
      cursor := cursor + 1;
      if line == "" && (descriptionLines == [] || descriptionLines[|descriptionLines| - 1] == "") {
        break;
      }
      descriptionLines := descriptionLines + [line];
      assert terminal[..cursor] == terminal[..cursor - 1] + [line];
    }
    WellCollectedIffNoEnd(terminal, cursor - 1);
    FindEndIsFirst(terminal, cursor - 1);
    var description := DescriptionText(descriptionLines);

    var subject := FormatSubject(title, selectedLabels);

    var ccMembers := [];
    if config.ccMembers != [] {
      ccMembers := [MenuPick(config.ccMembers, ccChoice)];
    }

    ghost var details := CardDetails(title, selectedLabels, description, ccMembers);
    assert CardDetailsSpec(config, title, labelChoice, terminal, ccChoice) == Success(details);

    if !confirm {
      return Cancelled;
    }

    var credential := GetGmailService(env);
    if credential.Failure? {
      return Reported(credential.error);
    }
    var sender := api.GetProfile();
    if sender.None? {
      return Reported(ProfileUnavailable);
    }
    var message := CreateMessage(sender.value, config.boardEmail, subject, description, CcHeader(ccMembers));
    var sent := api.Send(message);
    outcome := if sent then Created else Reported(SendRejected);
  }
}
