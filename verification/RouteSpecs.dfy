/**
 Printing and parsing of route specifications (`RouteSpec.display_name` and `parse_route_spec`
 in astrata/eval/cyclone.py).
 */
module RouteSpecs {
  import opened Options
  import opened Text

  datatype RouteSpec = RouteSpec(provider: string, model: Option<string>, tool: Option<string>, nickname: Option<string>)

  datatype Parsed = Ok(spec: RouteSpec) | EmptySpec | MissingTool

  /** Absent and empty are both false to the source. */
  predicate Given(s: Option<string>) {
    s.Some? && s.value != ""
  }

  function OrNone(s: string): Option<string> {
    if s == "" then None else Some(s)
  }

  function DisplayName(spec: RouteSpec): string {
    if Given(spec.nickname) then spec.nickname.value
    else if spec.provider == "cli" && Given(spec.tool) then
      if Given(spec.model) then "cli:" + spec.tool.value + ":" + spec.model.value else "cli:" + spec.tool.value
    else if Given(spec.model) then spec.provider + ":" + spec.model.value
    else spec.provider
  }

  /** `text.split(":")` */
  function Split(text: string): (parts: seq<string>)
    ensures parts != []
  {
    if text == "" then [""]
    else
      var rest := Split(text[1..]);
      if text[0] == ':' then [""] + rest else [[text[0]] + rest[0]] + rest[1..]
  }

  /** `":".join(parts)` */
  function Join(parts: seq<string>): string {
    if parts == [] then ""
    else if |parts| == 1 then parts[0]
    else parts[0] + ":" + Join(parts[1..])
  }

  function Parse(raw: string): Parsed {
    var text := Strip(raw);
    if text == "" then EmptySpec
    else
      var parts := Split(text);
      var head := Lower(Strip(parts[0]));
      if head == "local" then Ok(RouteSpec("local", OrNone(Strip(Join(parts[1..]))), None, None))
      else if head == "cli" then
        if |parts| < 2 then MissingTool
        else Ok(RouteSpec("cli", OrNone(Strip(Join(parts[2..]))), Some(Strip(parts[1])), None))
      else Ok(RouteSpec(head, OrNone(Strip(Join(parts[1..]))), None, None))
  }

  // ---------- splitting and joining ----------

  lemma {:induction false} SplitWhole(text: string)
    requires ':' !in text
    ensures Split(text) == [text]
  {
    if text != "" {
      SplitWhole(text[1..]);
      assert text == [text[0]] + text[1..];
    }
  }

  lemma {:induction false} SplitFirst(head: string, rest: string)
    requires ':' !in head
    ensures Split(head + ":" + rest) == [head] + Split(rest)
  {
    var text := head + ":" + rest;
    if head == "" {
      assert text[1..] == rest;
    } else {
      SplitFirst(head[1..], rest);
      assert text[1..] == head[1..] + ":" + rest;
      assert head == [head[0]] + head[1..] && text[0] == head[0];
      assert ([head[1..]] + Split(rest))[1..] == Split(rest);
    }
  }

  lemma {:induction false} JoinSplit(text: string)
    ensures Join(Split(text)) == text
  {
    if text != "" {
      JoinSplit(text[1..]);
      var rest := Split(text[1..]);
      if text[0] == ':' {
        assert ([""] + rest)[1..] == rest;
      } else {
        var parts := [[text[0]] + rest[0]] + rest[1..];
        assert parts[1..] == rest[1..];
      }
      assert text == [text[0]] + text[1..];
    }
  }

  lemma {:induction false} PartsHaveNoColon(text: string)
    ensures forall p | p in Split(text) :: ':' !in p
  {
    if text != "" {
      PartsHaveNoColon(text[1..]);
      var rest := Split(text[1..]);
      assert rest[0] in rest;
    }
  }

  // ---------- the specs that survive printing and parsing ----------

  predicate NameLike(s: string) {
    Trimmed(s) && ':' !in s
  }

  /** The shape of everything that parsing returns. */
  predicate WellFormed(spec: RouteSpec) {
    && spec.nickname == None
    && NameLike(spec.provider) && Lower(spec.provider) == spec.provider
    && (spec.model.Some? ==> spec.model.value != "" && Trimmed(spec.model.value))
    && (if spec.provider == "cli" then spec.tool.Some? && NameLike(spec.tool.value) else spec.tool == None)
  }

  /** A command-line route names a tool, and some provider or model is named at all. */
  predicate Complete(spec: RouteSpec) {
    !(spec.provider == "cli" && spec.tool == Some("")) && !(spec.provider == "" && spec.model == None)
  }

  lemma HeadIsName(part: string)
    requires ':' !in part
    ensures NameLike(Lower(Strip(part))) && Lower(Lower(Strip(part))) == Lower(Strip(part))
    ensures NameLike(Strip(part))
  {
    StripTrims(part);
    LowerAgain(Strip(part));
    LowerKeepsShape(Strip(part));
  }

  lemma ModelIsTrimmed(text: string)
    ensures OrNone(Strip(text)).Some? ==> OrNone(Strip(text)).value != "" && Trimmed(OrNone(Strip(text)).value)
  {
    StripTrims(text);
  }

  lemma FixedNames()
    ensures NameLike("local") && Lower("local") == "local" && NameLike("cli") && Lower("cli") == "cli"
  {
  }

  /** Parsing returns only well-formed specs. */
  lemma ParsesWellFormed(raw: string)
    requires Parse(raw).Ok?
    ensures WellFormed(Parse(raw).spec)
  {
    var parts := Split(Strip(raw));
    PartsHaveNoColon(Strip(raw));
    HeadIsName(parts[0]);
    ModelIsTrimmed(Join(parts[1..]));
    if |parts| >= 2 {
      HeadIsName(parts[1]);
      ModelIsTrimmed(Join(parts[2..]));
    }
    FixedNames();
  }

  lemma PlainRoundTrip(spec: RouteSpec)
    requires WellFormed(spec) && Complete(spec) && spec.provider != "cli"
    ensures Parse(DisplayName(spec)) == Ok(spec)
  {
    var text := DisplayName(spec);
    TrimmedStays(spec.provider);
    TrimmedStays(text);
    if Given(spec.model) {
      SplitFirst(spec.provider, spec.model.value);
      assert Split(text)[1..] == Split(spec.model.value);
      JoinSplit(spec.model.value);
      TrimmedStays(spec.model.value);
    } else {
      SplitWhole(text);
      assert Join(Split(text)[1..]) == "";
    }
  }

  lemma CliRoundTrip(spec: RouteSpec)
    requires WellFormed(spec) && Complete(spec) && spec.provider == "cli"
    ensures Parse(DisplayName(spec)) == Ok(spec)
  {
    var text, tool := DisplayName(spec), spec.tool.value;
    TrimmedStays(text);
    TrimmedStays(tool);
    TrimmedStays("cli");
    assert Lower("cli") == "cli";
    if Given(spec.model) {
      ToolAndModelSplit(tool, spec.model.value);
      assert text == "cli:" + tool + ":" + spec.model.value;
      TrimmedStays(spec.model.value);
    } else {
      ToolSplit(tool);
      assert text == "cli:" + tool;
    }
  }

  lemma ToolAndModelSplit(tool: string, model: string)
    requires ':' !in tool
    ensures var parts := Split("cli:" + tool + ":" + model);
      |parts| >= 2 && parts[0] == "cli" && parts[1] == tool && Join(parts[2..]) == model
  {
    assert "cli:" + tool + ":" + model == "cli" + ":" + (tool + ":" + model);
    SplitFirst("cli", tool + ":" + model);
    SplitFirst(tool, model);
    var parts := Split("cli:" + tool + ":" + model);
    assert parts == ["cli", tool] + Split(model);
    assert parts[2..] == Split(model);
    JoinSplit(model);
  }

  lemma ToolSplit(tool: string)
    requires ':' !in tool
    ensures Split("cli:" + tool) == ["cli", tool]
  {
    assert "cli:" + tool == "cli" + ":" + tool;
    SplitFirst("cli", tool);
    SplitWhole(tool);
  }

  /** Exactly which specs come back from their printed form. */
  lemma RoundTripExactly(spec: RouteSpec)
    ensures Parse(DisplayName(spec)) == Ok(spec) <==> WellFormed(spec) && Complete(spec)
  {
    if WellFormed(spec) && Complete(spec) {
      if spec.provider == "cli" {
        CliRoundTrip(spec);
      } else {
        PlainRoundTrip(spec);
      }
    }
    if Parse(DisplayName(spec)) == Ok(spec) {
      ParsesWellFormed(DisplayName(spec));
      if spec.provider == "cli" && spec.tool == Some("") {
        EmptyToolIsLost(spec);
      }
    }
  }

  /** Without a tool the first part of the model takes its place, and without both nothing can be parsed. */
  lemma EmptyToolIsLost(spec: RouteSpec)
    requires WellFormed(spec) && spec.provider == "cli" && spec.tool == Some("")
    ensures spec.model == None ==> Parse(DisplayName(spec)) == MissingTool
    ensures Parse(DisplayName(spec)) != Ok(spec)
  {
    var text := DisplayName(spec);
    TrimmedStays("cli");
    assert Lower("cli") == "cli";
    if spec.model == None {
      SplitWhole("cli");
    } else {
      var model := spec.model.value;
      TrimmedStays(text);
      assert text == "cli" + ":" + model;
      SplitFirst("cli", model);
      assert Split(text)[1..] == Split(model) && Split(text)[2..] == Split(model)[1..];
      JoinSplit(model);
      StripShortens(Join(Split(model)[1..]));
      TrimmedStays(model);
    }
  }

  /** Parse, print, parse is parse on exactly the accepted strings whose spec is complete. */
  lemma ParsePrintParseExactly(raw: string)
    requires Parse(raw).Ok?
    ensures Parse(DisplayName(Parse(raw).spec)) == Parse(raw) <==> Complete(Parse(raw).spec)
  {
    ParsesWellFormed(raw);
    RoundTripExactly(Parse(raw).spec);
  }

  // ---------- concrete forms ----------

  /** A nickname is all that is shown of a route that has one. */
  lemma NicknameShown(spec: RouteSpec)
    requires spec.nickname.Some? && spec.nickname.value != ""
    ensures DisplayName(spec) == spec.nickname.value
  {
  }

  /** A tool is shown of a command-line route alone, and none without a name. */
  lemma ToolShownForCliOnly(spec: RouteSpec)
    requires spec.provider != "cli" || spec.tool == Some("")
    ensures DisplayName(spec) == DisplayName(spec.(tool := None))
  {
  }

  /** `cli:<tool>:<model>`, with the model left out if there is none, is read and written as such, and so is `<provider>:<model>`. */
  lemma FormsExactly(provider: string, tool: string, model: string)
    requires NameLike(provider) && Lower(provider) == provider && provider != "" && provider != "cli"
    requires NameLike(tool) && tool != "" && Trimmed(model) && model != ""
    ensures Parse("cli:" + tool + ":" + model) == Ok(RouteSpec("cli", Some(model), Some(tool), None))
    ensures Parse("cli:" + tool) == Ok(RouteSpec("cli", None, Some(tool), None))
    ensures Parse(provider + ":" + model) == Ok(RouteSpec(provider, Some(model), None, None))
    ensures Parse(provider) == Ok(RouteSpec(provider, None, None, None))
  {
    FixedNames();
    CliRoundTrip(RouteSpec("cli", Some(model), Some(tool), None));
    CliRoundTrip(RouteSpec("cli", None, Some(tool), None));
    PlainRoundTrip(RouteSpec(provider, Some(model), None, None));
    PlainRoundTrip(RouteSpec(provider, None, None, None));
  }

  /** White space around a specification and around its provider, and the provider's case, do not matter; a blank one is refused. */
  lemma SpellingIrrelevant(left: string, text: string, right: string)
    requires Blank(left) && Blank(right) && Trimmed(text) && text != ""
    ensures Parse(left + text + right) == Parse(text)
    ensures Parse(left) == EmptySpec
  {
    StripAround(left, text, right);
    TrimmedStays(text);
    StripBlank(left);
  }

  lemma {:induction false} StripBlank(text: string)
    requires Blank(text)
    ensures Strip(text) == ""
  {
    if text != "" {
      StripBlank(text[1..]);
    }
  }
}
