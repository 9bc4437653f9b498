/**
 * modules/gmail_service.py: the Gmail service object. Creating one acquires
 * the credential and looks up the authenticated user's address; afterwards it
 * builds messages from that address and sends them.
 */
module Gmail {
  import opened Wrappers
  import opened TrelloCard
  import opened Transport

  class GmailService {
    /** The credential `self.service` was built with. */
    const credential: Credential
    /** `self.user_email`, the address `getProfile` returned. */
    const userEmail: string
    /** The Gmail API `self.service` talks to. */
    const api: MailApi

    constructor Init(credential: Credential, userEmail: string, api: MailApi)
      ensures this.credential == credential && this.userEmail == userEmail && this.api == api
    {
      this.credential := credential;
      this.userEmail := userEmail;
      this.api := api;
    }

    /**
     * `__init__`: acquire the credential (`_get_service`), then look up the
     * sender's address (`_get_user_email`); either step raising ends the
     * construction, and the address is looked up only once a credential is held.
     */
    static method Connect(env: OAuthEnvironment, api: MailApi) returns (service: Result<GmailService, Error>)
      modifies env, api
      ensures var a := Acquire(old(env.tokenFile), env.refreshResponse, env.flowResponse);
        env.log == old(env.log) + a.effects && env.tokenFile == a.tokenFile &&
        (a.credential.Failure? ==> service == Failure(a.credential.error) && api.calls == old(api.calls)) &&
        (a.credential.Success? ==> api.calls == old(api.calls) + [GetProfileCall]) &&
        (a.credential.Success? && api.profileAddress.None? ==> service == Failure(ProfileUnavailable)) &&
        (a.credential.Success? && api.profileAddress.Some? ==>
          service.Success? && fresh(service.value) &&
          service.value.credential == a.credential.value &&
          service.value.userEmail == api.profileAddress.value && service.value.api == api)
    {
      var credential := GetService(env);
      if credential.Failure? {
        return Failure(credential.error);
      }
      var userEmail := api.GetProfile();
      if userEmail.None? {
        return Failure(ProfileUnavailable);
      }
      var created := new GmailService.Init(credential.value, userEmail.value, api);
      return Success(created);
    }

    /** `_get_service`: the credential the Gmail service is built with, obtained as `Acquire` states. */
    static method GetService(env: OAuthEnvironment) returns (credential: Result<Credential, Error>)
      modifies env
      ensures var a := Acquire(old(env.tokenFile), env.refreshResponse, env.flowResponse);
        credential == a.credential && env.log == old(env.log) + a.effects && env.tokenFile == a.tokenFile
    {
      var creds := env.tokenFile;
      if creds.None? || !creds.value.valid {
        if creds.Some? && creds.value.expired && creds.value.hasRefreshToken {
          creds := env.Refresh();
          if creds.None? {
            return Failure(RefreshRejected);
          }
        } else {
          creds := env.RunLocalServer();
          if creds.None? {
            return Failure(AuthorizationFailed);
          }
        }
        env.SaveToken(creds.value);
      }
      return Success(creds.value);
    }

    /**
     * `create_message`: To and Subject from the arguments, the service's own
     * address as From, the text as body, and a Cc header only when `cc` is truthy.
     */
    function CreateMessage(to: string, subject: string, messageText: string, cc: Option<string>): (m: Outbound)
      ensures Lookup(m.raw.headers, "to") == Some(to)
      ensures Lookup(m.raw.headers, "from") == Some(userEmail)
      ensures Lookup(m.raw.headers, "subject") == Some(subject)
      ensures Lookup(m.raw.headers, "cc") == if Truthy(cc) then cc else None
      ensures |m.raw.headers| == if Truthy(cc) then 4 else 3
      ensures m.raw.body == messageText
    {
      Transport.CreateMessage(userEmail, to, subject, messageText, cc)
    }

    /** `send_message`: one send call carrying the message; whether the API accepted it. */
    method SendMessage(message: Outbound) returns (sent: bool)
      modifies api
      ensures api.calls == old(api.calls) + [SendCall(message)] && sent == api.acceptsSend
    {
      sent := api.Send(message);
    }
  }
}
