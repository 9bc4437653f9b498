# Trello card creator: a Dafny model of its core

The card creator is a command-line utility. It creates a Trello card by sending
an email to the board's card-by-email address from the user's own Gmail
mailbox. Its `new` command works in four steps:

- It prompts for a title, one label from the configured vocabulary, a
  multi-line description and, when the configuration lists any, one member
  to CC.
- It shows the card and asks for confirmation.
- On "yes" it sends one message. The To address is the board's, the subject
  is the title followed by the label tag, the body is the description, and
  the chosen member goes in Cc.
- Before sending it obtains an OAuth credential. It reuses the cached one in
  `token.pickle`, refreshes it, or runs the interactive authorization flow,
  and it rewrites the token file whenever it had to obtain a new one.

The repository holds this flow twice: once in the script `main.py`, and once
in the classes `CardCreator` (`modules/card_creator.py`) and `GmailService`
(`modules/gmail_service.py`). The model defines each rule once, as a
specification function in a shared module. It then gives each source file its
own method, proved against that function:

- `Text`: `sep.join`, the decimal rendering and parsing of menu numbers, and
  `str.split` on one character as the inverse of `sep.join` in round trips.
- `TrelloCard`: the rules the two implementations share. These are the
  configuration and card-details records, the subject line, the numbered
  menus, the description reader (where it stops and what it keeps), the `cc`
  argument, and the details the prompt sequence collects.
- `Transport`: the credential decision and its effects (`Acquire`) and the
  message `create_message` builds. It also holds the two outside parties as
  objects that record every call they receive: `OAuthEnvironment` (the token
  file, the token refresh, the interactive flow) and `MailApi` (`getProfile`,
  `send`).
- `MainScript`: `main.py`'s `get_gmail_service` and `new`.
- `Gmail`: class `GmailService`.
- `CardCreation`: class `CardCreator`.

Prompt answers (the title, the menu numbers, the yes/no confirmation) are
parameters of the methods. Each menu answer is assumed to be one of the
offered choices, because the prompt re-asks until it is. The lines `input()`
returns are a `seq<string>` that the reading loop walks with a cursor;
running past its end is Python's `EOFError`. What the OAuth library and the
Gmail API answer (a refreshed credential, a new credential, the profile
address, whether `send` succeeds) is fixed in the outside-party objects.
`None` or `false` there stands for the call raising.

The two `new` commands differ in these ways that the model keeps:

- `main.py` runs every prompt (title, label, description, CC member,
  confirmation; main.py:110-163) before its `try` opens at main.py:168, so an
  error in any of them escapes the command. `CardCreator.new` wraps the whole
  sequence in its `try` (modules/card_creator.py:88-111) and reports such an
  error as one error line. The model keeps this difference for the one prompt
  it reads from the terminal, the description: running out of terminal lines
  there gives `Uncaught(EndOfInput)` in `MainScript.New` and
  `Reported(EndOfInput)` in `CardCreator.New`.
- `main.py` authenticates and looks up the sender only after the user
  confirms. A `GmailService` does both when it is created, before any card is
  composed.

They differ in one more way that the model does not keep: where the token and
client-secret files live (see "## Left out").

Both flows build the `cc` argument as `', '.join(cc_members) if cc_members
else None` (main.py:178, modules/card_creator.py:105), and both message
builders add a Cc header only when that value is truthy (main.py:83,
modules/gmail_service.py:54). So a configured CC member that is the empty
string is selected, but the message carries no Cc header
(`CardMessageHeaders`).

Three facts about the code are easy to miss, and the model states each:

- The description ends at the first blank line that is either the very first
  line or follows a blank line (main.py:132). A blank first line therefore
  ends the description at once: `["", ""]` consumes one line and gives `""`.
- The lines `["desc", ""]` with nothing after them do not end the
  description: the reader runs out of input. `EndToEndExample` therefore
  closes "desc" with two blank lines.
- A cached credential is reused when `creds.valid` holds (main.py:64,
  modules/gmail_service.py:31); whether it has expired matters only for the
  choice between refreshing it and running the interactive flow.

## Model

| member | source | states |
|---|---|---|
| TrelloCard.FormatSubject | main.py:87-92 | the title is a prefix of the subject, and the subject equals the title exactly when the label list is empty |
| TrelloCard.SubjectListsLabels | modules/card_creator.py:16-21 | for a non-empty list of space-free tags, the subject continues after the title with one space, and the rest splits on spaces back into exactly the tags, in order |
| TrelloCard.MenuChoicesExact | main.py:119-122 | a menu over n entries offers exactly the strings "1".."n", in order and each once |
| TrelloCard.MenuChoiceParses | main.py:121-123 | every offered answer parses as a decimal number k with 1 <= k <= n, and it is the k-th choice offered |
| TrelloCard.MenuPick | main.py:123 | the entry picked is the one at position k of the options in config order, where the answer is the decimal string of k + 1 |
| TrelloCard.MenuPickNth | modules/card_creator.py:37-42 | answering with the number k + 1 is accepted, and it picks exactly the k-th option |
| Text.DecimalRoundTrip | main.py:121-123 | `int(str(n)) == n` for every natural n |
| Text.NatToDecimal | main.py:121 | `str(n)` is a non-empty string of decimal digits without a leading zero |
| Text.SplitJoin | main.py:135 | splitting a `"\n".join` of a non-empty list of lines that contain no line break gives back exactly those lines (for the empty list the join is "", which splits into one empty line) |
| TrelloCard.FindEnd | main.py:130-133 | the index found holds a blank line that is first or follows a blank, no earlier line does, and None means no line does |
| TrelloCard.FindEndIsFirst | main.py:130-133 | the first line ending the description is the stopping index |
| TrelloCard.WellCollectedIffNoEnd | main.py:132-134 | the collected prefix has no blank first entry and no two adjacent blanks, exactly when none of its lines ends the description |
| TrelloCard.ReadDescriptionStops | main.py:129-135 | the reader fails with end of input exactly when no line ends the description. Otherwise it consumes the lines through the first ending line, keeps the earlier lines well collected, gives "" when it stops at the first line, and otherwise drops a blank last line and joins the rest with "\n" |
| TrelloCard.DescriptionKeepsLines | modules/card_creator.py:47-53 | when the reader kept at least one line (it did not stop at the first line) and no terminal line contains a line break, the description splits back into exactly the lines it kept, in order |
| TrelloCard.DescriptionExamples | modules/card_creator.py:47-53 | ["line1","",""] gives "line1"; ["",""] gives "" after one line; ["a","","b","",""] gives "a\n\nb"; ["a","","b",""] runs out of input |
| TrelloCard.CcHeader | main.py:178 | the `cc` argument is None exactly when no member was selected, and it is the member itself when one was |
| TrelloCard.CardDetailsShape | modules/card_creator.py:33-74 | the details exist exactly when the description reader succeeds. They hold the title, exactly one tag (the chosen label's value in config order) and the description read. They hold no CC member when none is configured, and otherwise exactly the chosen one |
| Transport.ValidCredentialReused | modules/gmail_service.py:27-31 | a cached, valid credential is used as it is: no refresh, no flow, no token-file write |
| Transport.ExpiredCredentialRefreshed | modules/gmail_service.py:31-33 | a cached, invalid, expired credential with a refresh token is refreshed exactly once, no flow runs, and the refreshed credential is used |
| Transport.UnusableCredentialAuthorizes | modules/gmail_service.py:31-37 | with no cached credential, or an invalid one that cannot be refreshed, the interactive flow runs first and exactly once, no refresh happens, and the flow's credential is used |
| Transport.TokenRewrittenIff | modules/gmail_service.py:31-40 | the token file is written exactly when the cached credential was missing or invalid and a new one was obtained. The write is the last effect. After success the file holds the credential in use; after a failure it is unchanged |
| Transport.OAuthEnvironment.Refresh | modules/gmail_service.py:33 | the refresh call is recorded and yields the library's response |
| Transport.OAuthEnvironment.RunLocalServer | modules/gmail_service.py:35-37 | the interactive flow is recorded and yields its credential |
| Transport.OAuthEnvironment.SaveToken | modules/gmail_service.py:39-40 | the write is recorded, and the token file then holds the credential |
| Transport.CreateMessage | main.py:77-85 | To, From and Subject carry the arguments and the body is the text. A Cc header is present exactly when `cc` is truthy (not None and not ""), and it then carries `cc`. There are three or four headers accordingly |
| Transport.CardMessageHeaders | main.py:173-179 | the card message goes to the board address from the sender, with the formatted subject and the description as body. It has a Cc header exactly when one non-empty member was selected, and that header names the member |
| Transport.EndToEndExample | main.py:110-179 | label 1 of {"Bug": "#bug"}, description "desc", CC 1 of ["alice@x.com"] give the message to the board with subject "Fix bug #bug", body "desc" and Cc "alice@x.com" |
| Transport.MailApi.GetProfile | modules/gmail_service.py:44-46 | the profile lookup is recorded and yields the account's address |
| Transport.MailApi.Send | modules/gmail_service.py:58-60 | the send is recorded with its message and yields whether the API accepted it |
| MainScript.GetGmailService | main.py:57-75 | the credential, the effects appended to the OAuth log and the token file afterwards are exactly those `Acquire` states for the cached credential |
| MainScript.New | main.py:99-187 | running out of description lines escapes the command with nothing sent. Declining gives Cancelled with no OAuth effect and no API call. Accepting performs the acquisition effects, then one profile lookup if a credential was obtained, then exactly one send of the card message from the profile address if that lookup succeeded. Each failure is reported as one error line |
| Gmail.GmailService.Init | modules/gmail_service.py:17-19 | the service holds the credential, the user's address and the API it was created with |
| Gmail.GmailService.Connect | modules/gmail_service.py:17-46 | creating the service performs the acquisition `Acquire` states. It looks up the address only when a credential was obtained, fails with the first error met, and otherwise yields a new service holding that credential and address |
| Gmail.GmailService.GetService | modules/gmail_service.py:21-42 | the credential, the effects appended to the OAuth log and the token file afterwards are exactly those `Acquire` states for the cached credential |
| Gmail.GmailService.CreateMessage | modules/gmail_service.py:48-56 | To and Subject carry the arguments, From is the service's own address, and the body is the text. A Cc header is present exactly when `cc` is truthy (not None and not ""), and it then carries `cc`. There are three or four headers accordingly |
| Gmail.GmailService.SendMessage | modules/gmail_service.py:58-60 | exactly one send call carrying the message reaches the API |
| CardCreation.CardCreator.constructor | modules/card_creator.py:11-14 | the creator holds the configuration and the Gmail service it was given |
| CardCreation.CardCreator.GetCardDetails | modules/card_creator.py:23-74 | the loop over terminal lines yields exactly the details `CardDetailsSpec` states, and it consumes exactly the lines the description reader consumes. When no line ends the description it consumes all of them |
| CardCreation.CardCreator.New | modules/card_creator.py:86-112 | running out of description lines is reported as one error line with nothing sent. Declining gives Cancelled with no API call. Accepting sends exactly one message: to the board, from the service's address, with the formatted subject, the description and the CC member. The outcome is success or one reported error |

## Left out

- The virtual-environment bootstrap (`init_venv`, main.py:7-26): it only runs processes and executes a script.
- Loading the configuration (`load_config` in main.py:47-55 and modules/config.py): a file-existence check, YAML parsing and `exit(1)`. The model takes the `trello` section as a `Config` value. A missing key or a missing file is not modelled.
- `modules/__init__.py`: re-exports only.
- MIME serialisation and base64url encoding (section 5 of RFC 4648) in `create_message`. `raw` holds the header list and body in place of their encoding. The headers MIMEText adds itself (Content-Type, MIME-Version, Content-Transfer-Encoding) are not listed.
- The OAuth protocol, token refresh on the wire, pickle (de)serialisation, and the Gmail REST calls. Only the branch decision, the order of effects and their results (as parameters) are kept. A credential is the three flags the decision reads.
- Console output: the welcome text, the label and member listings, `_display_confirmation` (modules/card_creator.py:76-84) and the confirmation view in main.py:155-161, and the texts of the success, cancel and error lines. The `Outcome` value says which line is printed.
- `Prompt.ask` re-prompting, its rejection of answers outside the choices, and `Confirm.ask`'s default: prompt answers are parameters, and each menu answer is required to lie among the offered choices.
- End of input at the title, label, CC or confirmation prompt (main.py:110, 119, 148, 163; modules/card_creator.py:29, 37, 63, 95): `Prompt.ask` and `Confirm.ask` then raise `EOFError`. In main.py these prompts come before the `try` at main.py:168, so the error escapes `new`; `CardCreator.new` catches it and reports one error line. Because the answers are parameters, neither `MainScript.New` nor `CardCreator.New` produces this outcome; only end of input in the description loop is modelled.
- The locations of `token.pickle` and `credentials.json`: main.py opens them relative to the working directory (main.py:60-61, 69, 72), while `GmailService` opens them in the repository root (modules/gmail_service.py:24-25). The two flows can therefore read and rewrite different token files. The model has no paths: each flow is given its own `OAuthEnvironment`, and which file that environment stands for is left to the caller.
- `AnswersOffered` (the requirement on both `new` methods and on `GetCardDetails`): with an empty `labels` mapping the label menu offers no choice, so no answer satisfies it and that configuration is excluded from the model. The source instead re-prompts until the terminal input ends and then raises `EOFError`, which escapes main.py's `new` and is reported as one error line by `CardCreator.new`.
- The click command group and entry point (main.py:94-97, 189-190) and the process exit codes.
- `build('gmail', 'v1', credentials=creds)`: the service is represented by the credential it is built with.
