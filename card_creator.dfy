/**
 * modules/card_creator.py: the card creator object. It collects the card
 * details through the prompts, asks for confirmation, and hands the message
 * to the Gmail service it was given; every step runs inside one exception
 * handler.
 */
module CardCreation {
  import opened Wrappers
  import opened TrelloCard
  import opened Transport
  import opened Gmail

  class CardCreator {
    /** `self.config`, the `trello` section of the configuration. */
    const config: Config
    const gmailService: GmailService

    constructor(config: Config, gmailService: GmailService)
      ensures this.config == config && this.gmailService == gmailService
    {
      this.config := config;
      this.gmailService := gmailService;
    }

    /**
     * `_get_card_details`: the prompt answers are parameters and `terminal`
     * holds the lines `input()` returns. The details are those
     * `CardDetailsSpec` states; `consumed` is how many terminal lines the
     * description reader took (all of them when it ran out).
     */
    method GetCardDetails(title: string, labelChoice: string, terminal: seq<string>, ccChoice: string)
      returns (details: Result<CardDetails, Error>, consumed: nat)
      requires AnswersOffered(config, labelChoice, ccChoice)
      ensures details == CardDetailsSpec(config, title, labelChoice, terminal, ccChoice)
      ensures details.Success? ==> ReadDescriptionSpec(terminal).value.consumed == consumed
      ensures details.Failure? ==> consumed == |terminal|
    {
      var (_, labelValue) := MenuPick(config.labels, labelChoice);
      var selectedLabels := [labelValue];

      var descriptionLines: seq<string> := [];
      var cursor: nat := 0;
      while true
        invariant cursor <= |terminal|
        invariant descriptionLines == terminal[..cursor]
        invariant WellCollected(descriptionLines)
        decreases |terminal| - cursor
      {
        if cursor == |terminal| {
          WellCollectedIffNoEnd(terminal, cursor);
          return Failure(EndOfInput), cursor;
        }
        var line := terminal[cursor];
        cursor := cursor + 1;
        if line == "" && (descriptionLines == [] || descriptionLines[|descriptionLines| - 1] == "") {
          break;
        }
        descriptionLines := descriptionLines + [line];
        assert terminal[..cursor] == terminal[..cursor - 1] + [line];
      }
      WellCollectedIffNoEnd(terminal, cursor - 1);
      FindEndIsFirst(terminal, cursor - 1);
      var description := DescriptionText(descriptionLines);

      var ccMembers := [];
      if config.ccMembers != [] {
        ccMembers := [MenuPick(config.ccMembers, ccChoice)];
      }

      return Success(CardDetails(title, selectedLabels, description, ccMembers)), cursor;
    }

    /**
     * `new`: collect the details, then ask for confirmation. Declining sends
     * nothing; accepting builds the card message from the service's address
     * and sends it once. Running out of terminal lines is reported by the
     * handler before anything is sent.
     */
    method New(title: string, labelChoice: string, terminal: seq<string>, ccChoice: string, confirm: bool)
      returns (outcome: Outcome)
      requires AnswersOffered(config, labelChoice, ccChoice)
      modifies gmailService.api
      ensures var details := CardDetailsSpec(config, title, labelChoice, terminal, ccChoice);
        details.Failure? ==> outcome == Reported(EndOfInput)
      ensures var details := CardDetailsSpec(config, title, labelChoice, terminal, ccChoice);
        details.Success? && !confirm ==> outcome == Cancelled
      ensures var details := CardDetailsSpec(config, title, labelChoice, terminal, ccChoice);
        !(details.Success? && confirm) ==> gmailService.api.calls == old(gmailService.api.calls)
      ensures var details := CardDetailsSpec(config, title, labelChoice, terminal, ccChoice);
        details.Success? && confirm ==>
          gmailService.api.calls == old(gmailService.api.calls) + [SendCall(CardMessage(gmailService.userEmail, config, details.value))] &&
          outcome == if gmailService.api.acceptsSend then Created else Reported(SendRejected)
    {
      var details, _ := GetCardDetails(title, labelChoice, terminal, ccChoice);
      if details.Failure? {
        return Reported(details.error);
      }

      if !confirm {
        return Cancelled;
      }

      var subject := FormatSubject(details.value.title, details.value.labels);
      var message := gmailService.CreateMessage(
        config.boardEmail, subject, details.value.description, CcHeader(details.value.ccMembers));
      var sent := gmailService.SendMessage(message);
      outcome := if sent then Created else Reported(SendRejected);
    }
  }
}
