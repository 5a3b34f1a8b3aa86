/** The cases the repository's own tests pin down, stated over the model.
    Where a test feeds in literal text, the lemma is stated for every text
    of the same shape, the test's literal being one instance. */
module Examples {
  import opened Wrappers
  import opened Strings
  import opened JsValues
  import opened Entities
  import opened MablApiClient
  import Legacy = LegacyMablApiClient
  import opened Driver

  /** An item the list parser returns unchanged: non-empty, free of
      separators, and without blanks at either end. */
  predicate PlainItem(a: string) {
    a != "" && NoneIn(a, ListSeparators) && a[0] !in JsWhitespace && a[|a| - 1] !in JsWhitespace
  }

  lemma PlainItemTrimmed(a: string)
    requires PlainItem(a)
    ensures Trim(a) == a
  {
    assert a == "" + a + "";
    TrimFramed("", a, "");
  }

  /** `optionalArrayInput` on an empty input and on one item with a trailing
      blank (`chrome `). */
  lemma ArrayInputSingle(a: string)
    requires PlainItem(a)
    ensures OptionalArrayInput("") == []
    ensures OptionalArrayInput(a + " ") == [a]
  {
    SplitFree(a + " ", ListSeparators);
    assert NonEmptyPieces([a + " "]) == [a + " "];
    assert a + " " == "" + a + " ";
    TrimFramed("", a, " ");
  }

  /** `optionalArrayInput` on `chrome, firefox `: the blank after the comma
      and the trailing blank are trimmed away. */
  lemma ArrayInputCommas(a: string, b: string)
    requires PlainItem(a) && PlainItem(b)
    ensures OptionalArrayInput(a + ", " + b + " ") == [a, b]
  {
    var second := " " + b + " ";
    assert a + ", " + b + " " == a + [','] + second;
    SplitCons(a, ',', second, ListSeparators);
    SplitFree(second, ListSeparators);
    assert NonEmptyPieces([a, second]) == [a, second];
    PlainItemTrimmed(a);
    TrimFramed(" ", b, " ");
  }

  /** `optionalArrayInput` on `chrome`, `firefox` and `safari ` on three lines. */
  lemma ArrayInputNewlines(a: string, b: string, c: string)
    requires PlainItem(a) && PlainItem(b) && PlainItem(c)
    ensures OptionalArrayInput(a + "\n" + b + "\n" + c + " ") == [a, b, c]
  {
    var raw := a + "\n" + b + "\n" + c + " ";
    NewlinePieces(a, b, c);
    TrimmedPieces(raw, [a, b, c + " "]);
    TrimmedLines(a, b, c);
  }

  /** The three pieces trim to the three items. */
  lemma TrimmedLines(a: string, b: string, c: string)
    requires PlainItem(a) && PlainItem(b) && PlainItem(c)
    ensures TrimAll([a, b, c + " "]) == [a, b, c]
  {
    PlainItemTrimmed(a);
    PlainItemTrimmed(b);
    TrailingBlankTrimmed(c);
  }

  lemma TrailingBlankTrimmed(c: string)
    requires PlainItem(c)
    ensures Trim(c + " ") == c
  {
    assert c + " " == "" + c + " ";
    TrimFramed("", c, " ");
  }

  /** When no piece between separators is empty, the items are the pieces, trimmed. */
  lemma TrimmedPieces(raw: string, pieces: seq<string>)
    requires Split(raw, ListSeparators) == pieces
    requires forall i | 0 <= i < |pieces| :: pieces[i] != ""
    ensures OptionalArrayInput(raw) == TrimAll(pieces)
  {
    NonEmptyPiecesKeepsAll(pieces);
  }

  /** The three lines split apart at the two newlines. */
  lemma NewlinePieces(a: string, b: string, c: string)
    requires PlainItem(a) && PlainItem(b) && PlainItem(c)
    ensures Split(a + "\n" + b + "\n" + c + " ", ListSeparators) == [a, b, c + " "]
  {
    var raw, third := a + "\n" + b + "\n" + c + " ", c + " ";
    assert raw == a + ['\n'] + (b + ['\n'] + third);
    SplitCons(a, '\n', b + ['\n'] + third, ListSeparators);
    SplitCons(b, '\n', third, ListSeparators);
    SplitFree(third, ListSeparators);
  }

  /** `booleanInput` after the input's blanks are gone: any capitalisation of
      `true` is true, anything else false. */
  lemma BooleanInputCases()
    ensures !BooleanInput("") && !BooleanInput("false") && !BooleanInput("False")
    ensures BooleanInput("True") && BooleanInput("true") && BooleanInput("TRUE")
  {
  }

  /** `optionalInput`: empty is absent, anything else is kept verbatim. */
  lemma OptionalInputCases()
    ensures OptionalInput("") == None
    ensures OptionalInput("baz") == Some("baz") && OptionalInput("BAZ") == Some("BAZ")
  {
  }

  /** The current builder with every option but labels, headers and branch:
      no labels or headers key, both actions set, no event time for 0. */
  lemma CurrentBuilderAllOptions(properties: Json)
    requires properties.JObj?
    ensures BuildRequestBody(EventOptions(
              ["firefox", "chrome", "internet_explorer"], [], [], true, true, 0, Some(properties),
              Some("app"), Some("env"), Some("uri"), Some("abcs"), None))
            == RequestBody(
                 environmentId := Some("env"),
                 applicationId := Some("app"),
                 sourceControlTag := None,
                 planOverrides := PlanOverrides(Some(["firefox", "chrome", "internet_explorer"]), Some("uri"), None, None),
                 planLabels := None,
                 revision := Some("abcs"),
                 eventTime := None,
                 properties := Some(properties),
                 actions := Actions(Some(true), Some(true)))
  {
  }

  /** The current builder with labels and two `name:value` headers, an
      empty environment id and both actions off: each header is split at its
      colon, headers are marked required, the environment id is left out and
      `actions` is empty. */
  lemma CurrentBuilderSomeOptions(properties: Json, name1: string, value1: string, name2: string, value2: string)
    requires properties.JObj?
    requires NoneIn(name1, {':'}) && NoneIn(value1, {':'}) && NoneIn(name2, {':'}) && NoneIn(value2, {':'})
    ensures BuildRequestBody(EventOptions(
              ["chrome", "firefox"], ["alpha", "beta"], [name1 + ":" + value1, name2 + ":" + value2],
              false, false, 0, Some(properties), Some("app"), Some(""), Some("uri"), Some("abcs"), None))
            == RequestBody(
                 environmentId := None,
                 applicationId := Some("app"),
                 sourceControlTag := None,
                 planOverrides := PlanOverrides(
                   Some(["chrome", "firefox"]), Some("uri"),
                   Some([HeaderEntry(name1, Some(value1), false), HeaderEntry(name2, Some(value2), false)]),
                   Some(true)),
                 planLabels := Some(["alpha", "beta"]),
                 revision := Some("abcs"),
                 eventTime := None,
                 properties := Some(properties),
                 actions := Actions(None, None))
  {
    ParseHeaderWithColon(name1, value1, None);
    ParseHeaderWithColon(name2, value2, None);
    var entries := HeaderEntries([name1 + ":" + value1, name2 + ":" + value2]);
    assert entries[0] == HeaderEntry(name1, Some(value1), false);
    assert entries[1] == HeaderEntry(name2, Some(value2), false);
    assert entries == [HeaderEntry(name1, Some(value1), false), HeaderEntry(name2, Some(value2), false)];
  }

  /** A header with two colons (`A:b:c`) keeps only the text between them
      as its value; one without a colon has no value. */
  lemma HeaderCases(name: string, value: string, rest: string)
    requires NoneIn(name, {':'}) && NoneIn(value, {':'})
    ensures ParseHeader(name + ":" + value + ":" + rest) == HeaderOverride(name, Some(value))
    ensures ParseHeader(name) == HeaderOverride(name, None)
  {
    ParseHeaderWithColon(name, value, Some(rest));
    ParseHeaderWithoutColon(name);
  }

  /** The earlier builder splits the browser string on every comma and keeps
      the blanks after them: `firefox, chrome, internet_explorer` gives
      `firefox`, ` chrome` and ` internet_explorer`. */
  lemma LegacyBuilderAllOptions(properties: Json, a: string, b: string, c: string)
    requires properties.JObj? && a != ""
    requires NoneIn(a, {','}) && NoneIn(b, {','}) && NoneIn(c, {','})
    ensures Legacy.BuildRequestBody(Some("app"), Some("env"), Some(a + ", " + b + ", " + c), Some("uri"),
                                    true, true, 0, Some(properties), Some("abcs"))
            == RequestBody(
                 environmentId := Some("env"),
                 applicationId := Some("app"),
                 sourceControlTag := None,
                 planOverrides := PlanOverrides(Some([a, " " + b, " " + c]), Some("uri"), None, None),
                 planLabels := None,
                 revision := Some("abcs"),
                 eventTime := None,
                 properties := Some(properties),
                 actions := Actions(Some(true), Some(true)))
  {
    var second, third := " " + b, " " + c;
    assert a + ", " + b + ", " + c == a + [','] + (second + [','] + third);
    SplitCons(a, ',', second + [','] + third, {','});
    SplitCons(second, ',', third, {','});
    SplitFree(third, {','});
    assert Legacy.BrowserList(a + ", " + b + ", " + c) == [a, second, third];
  }

  /** The earlier builder with an empty environment and browser string. */
  lemma LegacyBuilderSomeOptions(properties: Json)
    requires properties.JObj?
    ensures Legacy.BuildRequestBody(Some("app"), Some(""), Some(""), Some("uri"), false, false, 0,
                                    Some(properties), Some("abcs"))
            == RequestBody(
                 environmentId := None,
                 applicationId := Some("app"),
                 sourceControlTag := None,
                 planOverrides := PlanOverrides(None, Some("uri"), None, None),
                 planLabels := None,
                 revision := Some("abcs"),
                 eventTime := None,
                 properties := Some(properties),
                 actions := Actions(None, None))
  {
  }

  /** Two failed journeys fail the run with the count in the message. */
  lemma VerdictMessage()
    ensures FinalVerdict(2, false) == Failed("2 mabl test(s) failed")
    ensures FinalVerdict(0, false) == Passed
  {
  }
}
