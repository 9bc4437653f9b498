/**
 * The rules of the card creator that main.py and modules/card_creator.py
 * share, each defined once: the subject line, the numbered menus for the
 * label and the CC member, the multi-line description reader, the CC header
 * value, and the card details the prompt sequence collects.
 */
module TrelloCard {
  import opened Wrappers
  import opened Text

  /**
   * The `trello` section of config.yml: the board's card-by-email address,
   * the label vocabulary as (display name, tag) pairs in document order, and
   * the CC candidates in document order.
   */
  datatype Config = Config(boardEmail: string, labels: seq<(string, string)>, ccMembers: seq<string>)

  /** The record `_get_card_details` returns. */
  datatype CardDetails = CardDetails(title: string, labels: seq<string>, description: string, ccMembers: seq<string>)

  /** The exceptions the command can meet, named by their cause. */
  datatype Error =
    | EndOfInput          // `input()` found no further terminal line
    | RefreshRejected     // the OAuth token refresh raised
    | AuthorizationFailed // the interactive authorization flow raised
    | ProfileUnavailable  // the Gmail `getProfile` call raised
    | SendRejected        // the Gmail `send` call raised

  /** How one run of the `new` command ends. */
  datatype Outcome =
    | Created             // the success line is printed
    | Cancelled           // the user declined; the cancellation line is printed
    | Reported(error: Error) // caught by the command's handler: one "An error occurred" line
    | Uncaught(error: Error) // propagates out of the command

  // ---------------------------------------------------------------------------
  // Subject line

  /** The email subject: the title alone, or the title, a space and the label tags joined by spaces. */
  function FormatSubject(title: string, labels: seq<string>): (subject: string)
    ensures title <= subject
    ensures subject == title <==> labels == []
  {
    if labels == [] then title else title + " " + Join(labels, " ")
  }

  /** With tags free of spaces, the subject's text after the title splits back into the tags. */
  lemma SubjectListsLabels(title: string, labels: seq<string>)
    requires labels != []
    requires forall k :: 0 <= k < |labels| ==> ' ' !in labels[k]
    ensures var subject := FormatSubject(title, labels);
      |subject| > |title| && subject[|title|] == ' ' && SplitOn(subject[|title| + 1..], ' ') == labels
  {
    var subject := FormatSubject(title, labels);
    assert subject[|title| + 1..] == Join(labels, [' ']);
    SplitJoin(labels, ' ');
  }

  // ---------------------------------------------------------------------------
  // Numbered menus

  /** The answers a numbered menu of `n` entries accepts: "1", "2", ..., "n". */
  function MenuChoices(n: nat): seq<string>
  {
    seq(n, k requires 0 <= k => NatToDecimal(k + 1))
  }

  /** The menu offers exactly "1".."n" in order, each once. */
  lemma MenuChoicesExact(n: nat)
    ensures |MenuChoices(n)| == n
    ensures forall k :: 0 <= k < n ==> MenuChoices(n)[k] == NatToDecimal(k + 1)
    ensures forall i, j :: 0 <= i < j < n ==> MenuChoices(n)[i] != MenuChoices(n)[j]
  {
    forall i, j | 0 <= i < j < n
      ensures MenuChoices(n)[i] != MenuChoices(n)[j]
    {
      if MenuChoices(n)[i] == MenuChoices(n)[j] {
        NatToDecimalInjective(i + 1, j + 1);
      }
    }
  }

  /** An accepted answer parses to its own 1-based position in the menu. */
  lemma MenuChoiceParses(n: nat, choice: string)
    requires choice in MenuChoices(n)
    ensures IsDecimal(choice)
    ensures 1 <= DecimalToNat(choice) <= n
    ensures MenuChoices(n)[DecimalToNat(choice) - 1] == choice
  {
    var k :| 0 <= k < n && MenuChoices(n)[k] == choice;
    DecimalRoundTrip(k + 1);
  }

  /** `options[int(choice) - 1]`: the entry a menu answer designates. */
  function MenuPick<T>(options: seq<T>, choice: string): (picked: T)
    requires choice in MenuChoices(|options|)
    ensures exists k :: 0 <= k < |options| && choice == NatToDecimal(k + 1) && picked == options[k]
  {
    MenuChoiceParses(|options|, choice);
    var k := DecimalToNat(choice) - 1;
    assert choice == NatToDecimal(k + 1);
    options[k]
  }

  /** Answering with the number k + 1 picks the k-th entry, in the order given. */
  lemma MenuPickNth<T>(options: seq<T>, k: nat)
    requires k < |options|
    ensures NatToDecimal(k + 1) in MenuChoices(|options|)
    ensures MenuPick(options, NatToDecimal(k + 1)) == options[k]
  {
    assert MenuChoices(|options|)[k] == NatToDecimal(k + 1);
    DecimalRoundTrip(k + 1);
  }

  // ---------------------------------------------------------------------------
  // Multi-line description

  /** Line `i` ends the description: it is blank and is the first line or follows a blank one. */
  predicate EndsDescription(lines: seq<string>, i: nat)
    requires i < |lines|
  {
    lines[i] == "" && (i == 0 || lines[i - 1] == "")
  }

  /** The first line at or after `from` that ends the description, if any. */
  function FindEnd(lines: seq<string>, from: nat): (end: Option<nat>)
    requires from <= |lines|
    ensures end.Some? ==> from <= end.value < |lines| && EndsDescription(lines, end.value)
    ensures forall j :: from <= j < |lines| && (end.None? || j < end.value) ==> !EndsDescription(lines, j)
    decreases |lines| - from
  {
    if from == |lines| then None
    else if EndsDescription(lines, from) then Some(from)
    else FindEnd(lines, from + 1)
  }

  /** The first line that ends the description is the one `FindEnd` finds. */
  lemma FindEndIsFirst(lines: seq<string>, i: nat)
    requires i < |lines| && EndsDescription(lines, i)
    requires forall j :: 0 <= j < i ==> !EndsDescription(lines, j)
    ensures FindEnd(lines, 0) == Some(i)
  {
  }

  /** What the reader's list can hold: a first entry that is not blank, and never two blanks in a row. */
  predicate WellCollected(lines: seq<string>)
  {
    (|lines| > 0 ==> lines[0] != "") &&
    forall k :: 0 < k < |lines| ==> lines[k - 1] != "" || lines[k] != ""
  }

  /** A prefix is well collected exactly when none of its lines ends the description. */
  lemma WellCollectedIffNoEnd(lines: seq<string>, n: nat)
    requires n <= |lines|
    ensures WellCollected(lines[..n]) <==> forall j :: 0 <= j < n ==> !EndsDescription(lines, j)
  {
    if WellCollected(lines[..n]) {
      forall j | 0 <= j < n
        ensures !EndsDescription(lines, j)
      {
        if j == 0 {
          assert lines[..n][0] == lines[0];
        } else {
          assert lines[..n][j - 1] == lines[j - 1] && lines[..n][j] == lines[j];
        }
      }
    } else if n > 0 && lines[0] == "" {
      assert EndsDescription(lines, 0);
    } else {
      var k :| 0 < k < n && lines[..n][k - 1] == "" && lines[..n][k] == "";
      assert EndsDescription(lines, k);
    }
  }

  /** `"\n".join(collected[:-1])`: every collected line but the last, one per line. */
  function DescriptionText(collected: seq<string>): string
  {
    if collected == [] then "" else Join(collected[..|collected| - 1], "\n")
  }

  /** The description read and the number of terminal lines consumed to read it. */
  datatype Reading = Reading(description: string, consumed: nat)

  /** The description reader, stated by where it stops: the first line that ends the description. */
  function ReadDescriptionSpec(input: seq<string>): Result<Reading, Error>
  {
    match FindEnd(input, 0)
    case None => Failure(EndOfInput)
    case Some(i) => Success(Reading(DescriptionText(input[..i]), i + 1))
  }

  /**
   * The reader fails exactly when no line ends the description; otherwise it
   * consumes the lines up to and including the first one that does, keeps
   * every line before it (well collected), and drops a blank last line.
   */
  lemma ReadDescriptionStops(input: seq<string>)
    ensures ReadDescriptionSpec(input).Failure? <==> forall j :: 0 <= j < |input| ==> !EndsDescription(input, j)
    ensures ReadDescriptionSpec(input).Failure? ==> ReadDescriptionSpec(input).error == EndOfInput
    ensures ReadDescriptionSpec(input).Success? ==>
      var i := ReadDescriptionSpec(input).value.consumed - 1;
      i < |input| && input[i] == "" &&
      (forall j :: 0 <= j < i ==> !EndsDescription(input, j)) &&
      WellCollected(input[..i]) &&
      (i == 0 ==> ReadDescriptionSpec(input).value.description == "") &&
      (i > 0 ==> (i >= 2 && input[i - 1] == "" &&
        ReadDescriptionSpec(input).value.description == Join(input[..i - 1], "\n")))
  {
    var end := FindEnd(input, 0);
    if end.Some? {
      var i := end.value;
      WellCollectedIffNoEnd(input, i);
      if i > 0 {
        assert input[..i][..i - 1] == input[..i - 1];
      }
    }
  }

  /** Terminal lines hold no line break, so the description splits back into the lines it kept. */
  lemma DescriptionKeepsLines(input: seq<string>)
    requires forall k :: 0 <= k < |input| ==> '\n' !in input[k]
    requires ReadDescriptionSpec(input).Success?
    requires ReadDescriptionSpec(input).value.consumed > 1
    ensures var r := ReadDescriptionSpec(input).value;
      SplitOn(r.description, '\n') == input[..r.consumed - 2]
  {
    ReadDescriptionStops(input);
    var i := ReadDescriptionSpec(input).value.consumed - 1;
    assert "\n" == ['\n'];
    SplitJoin(input[..i - 1], '\n');
  }

  /** A single blank between content lines is kept; the second one ends the description. */
  lemma DescriptionExamples()
    ensures ReadDescriptionSpec(["line1", "", ""]) == Success(Reading("line1", 3))
    ensures ReadDescriptionSpec(["", ""]) == Success(Reading("", 1))
    ensures ReadDescriptionSpec(["a", "", "b", "", ""]) == Success(Reading("a\n\nb", 5))
    ensures ReadDescriptionSpec(["a", "", "b", ""]) == Failure(EndOfInput)
  {
    assert ["line1", "", ""][..2][..1] == ["line1"];
    assert ["a", "", "b", "", ""][..4][..3] == ["a", "", "b"];
    assert Join(["", "b"], "\n") == "\nb";
    assert Join(["a", "", "b"], "\n") == "a\n\nb";
  }

  // ---------------------------------------------------------------------------
  // CC header and card details

  /** The `cc` argument: the selected members joined by ", ", or None when there are none. */
  function CcHeader(ccMembers: seq<string>): (cc: Option<string>)
    ensures cc.None? <==> ccMembers == []
    ensures |ccMembers| == 1 ==> cc == Some(ccMembers[0])
  {
    if ccMembers == [] then None else Some(Join(ccMembers, ", "))
  }

  /** The prompt answers lie within the menus offered (the prompt re-asks otherwise). */
  predicate AnswersOffered(config: Config, labelChoice: string, ccChoice: string)
  {
    labelChoice in MenuChoices(|config.labels|) &&
    (config.ccMembers != [] ==> ccChoice in MenuChoices(|config.ccMembers|))
  }

  /**
   * The details the prompt sequence collects: the title as given, the tag of
   * the chosen label, the description read from the terminal, and the chosen
   * CC member when the configuration offers any.
   */
  function CardDetailsSpec(config: Config, title: string, labelChoice: string, input: seq<string>, ccChoice: string)
    : Result<CardDetails, Error>
    requires AnswersOffered(config, labelChoice, ccChoice)
  {
    match ReadDescriptionSpec(input)
    case Failure(e) => Failure(e)
    case Success(reading) =>
      Success(CardDetails(
        title,
        [MenuPick(config.labels, labelChoice).1],
        reading.description,
        if config.ccMembers == [] then [] else [MenuPick(config.ccMembers, ccChoice)]))
  }

  /**
   * Collected details hold the title, exactly one label tag (that of the chosen
   * menu entry), the description read, and no CC member when none is
   * configured, otherwise exactly the chosen one.
   */
  lemma CardDetailsShape(config: Config, title: string, labelChoice: string, input: seq<string>, ccChoice: string)
    requires AnswersOffered(config, labelChoice, ccChoice)
    ensures var d := CardDetailsSpec(config, title, labelChoice, input, ccChoice);
      (d.Success? <==> ReadDescriptionSpec(input).Success?) &&
      (d.Success? ==>
        d.value.title == title &&
        d.value.description == ReadDescriptionSpec(input).value.description &&
        |d.value.labels| == 1 &&
        (exists k :: 0 <= k < |config.labels| && labelChoice == NatToDecimal(k + 1) && d.value.labels[0] == config.labels[k].1) &&
        (config.ccMembers == [] ==> d.value.ccMembers == []) &&
        (config.ccMembers != [] ==> (|d.value.ccMembers| == 1 &&
          exists k :: 0 <= k < |config.ccMembers| && ccChoice == NatToDecimal(k + 1) && d.value.ccMembers[0] == config.ccMembers[k])))
  {
  }
}
