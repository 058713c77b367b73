/**
 * The deterministic command resolver behind `POST /api/ai-assistant`: a
 * lower-cased command is matched against an ordered table of phrase keys
 * (first match wins), then against three fallback tiers, and the chosen
 * action descriptor is wrapped in the reply envelope.
 */
module Assistant {
  import opened Wrappers
  import opened Ascii

  /** A scene coordinate as the canned descriptors give it. */
  datatype Position = Position(x: real, y: real, z: real)

  /**
   * An action descriptor. Only `action` and `message` are always present;
   * `kind` is the descriptor's `type` property.
   */
  datatype Descriptor = Descriptor(
    action: string,
    message: string,
    item: Option<string>,
    kind: Option<string>,
    position: Option<Position>,
    style: Option<string>,
    color: Option<string>,
    material: Option<string>,
    brightness: Option<int>,
    temperature: Option<string>)

  /** A descriptor that carries only an action and a message. */
  function Bare(action: string, message: string): Descriptor {
    Descriptor(action, message, None, None, None, None, None, None, None, None)
  }

  const AddSofa: Descriptor :=
    Descriptor("add_furniture",
      "I've added a modern gray sofa to your room. It's positioned perfectly for conversation!",
      Some("modern_sofa"), None, Some(Position(0.0, 0.0, 0.0)), Some("modern"), Some("gray"),
      None, None, None)

  const ChangeWallColor: Descriptor :=
    Bare("change_wall_color",
      "I've changed the wall color to a warm beige. This creates a cozy atmosphere!")
      .(color := Some("warm_beige"))

  const AddPlant: Descriptor :=
    Bare("add_decoration",
      "I've added a beautiful fiddle leaf fig plant to brighten up the space!")
      .(item := Some("plant"), kind := Some("fiddle_leaf_fig"), position := Some(Position(2.0, 0.0, 1.0)))

  const MakeItBrighter: Descriptor :=
    Bare("adjust_lighting",
      "I've increased the lighting to make the room brighter and more inviting!")
      .(brightness := Some(80), temperature := Some("warm"))

  const AddCoffeeTable: Descriptor :=
    Bare("add_furniture",
      "I've added a sleek glass coffee table that complements your sofa perfectly!")
      .(item := Some("coffee_table"), material := Some("glass"), position := Some(Position(0.0, 0.0, 0.5)))

  /** The `responses` table, in declaration order. */
  const Responses: seq<(string, Descriptor)> := [
    ("add sofa", AddSofa),
    ("change wall color", ChangeWallColor),
    ("add plant", AddPlant),
    ("make it brighter", MakeItBrighter),
    ("add coffee table", AddCoffeeTable)
  ]

  /** The initial `response`, also the final answer when nothing matches. */
  const Unknown: Descriptor :=
    Bare("unknown",
      "I understand you want to make changes to your room. Could you be more specific about what you'd like me to do?")

  const AddSuggestion: Descriptor :=
    Bare("suggestion",
      "I can help you add furniture, decorations, or plants to your room. Try saying 'add a sofa' or 'add a plant'.")

  const ColorSuggestion: Descriptor :=
    Bare("suggestion",
      "I can help you change colors in your room. Try saying 'change wall color' or 'make it warmer'.")

  const LightingSuggestion: Descriptor :=
    Bare("suggestion",
      "I can adjust the lighting in your room. Try saying 'make it brighter' or 'add warm lighting'.")

  /** The reply body: the success envelope, or the one the catch-all returns with status 500. */
  datatype Reply =
    | Succeeded(response: string, action: string, data: Descriptor)
    | Failed(error: string, response: string)

  const FailureReply: Reply :=
    Failed("Failed to process AI command",
      "I'm having trouble understanding your request. Please try again.")

  /**
   * The table key `key` occurs in the lower-cased command `lc`. The source
   * lower-cases each key before the test; `KeysAreLowerCase` shows that this
   * leaves every key of the table as it is.
   */
  predicate KeyMatches(lc: string, key: string) {
    Contains(lc, key)
  }

  /** No key of `table` occurs in `lc`. */
  predicate NoKeyMatches(lc: string, table: seq<(string, Descriptor)>) {
    forall j :: 0 <= j < |table| ==> !KeyMatches(lc, table[j].0)
  }

  /** Index `i` holds the first key of `table` that occurs in `lc`. */
  predicate IsFirstMatch(lc: string, table: seq<(string, Descriptor)>, i: int) {
    && 0 <= i < |table|
    && KeyMatches(lc, table[i].0)
    && forall j :: 0 <= j < i ==> !KeyMatches(lc, table[j].0)
  }

  /** The descriptor of the first key of `table` that occurs in `lc`, if any. */
  function FirstMatch(lc: string, table: seq<(string, Descriptor)>): (r: Option<Descriptor>)
    ensures r.None? <==> NoKeyMatches(lc, table)
    ensures r.Some? ==> exists i :: IsFirstMatch(lc, table, i) && r.value == table[i].1
  {
    if table == [] then None
    else if KeyMatches(lc, table[0].0) then
      assert IsFirstMatch(lc, table, 0);
      Some(table[0].1)
    else
      var r := FirstMatch(lc, table[1..]);
      if r.Some? then
        var i :| IsFirstMatch(lc, table[1..], i) && r.value == table[1..][i].1;
        assert IsFirstMatch(lc, table, i + 1);
        r
      else
        r
  }

  /** One step of the scan: the suffix at `i` answers with entry `i` or with the suffix after it. */
  lemma FirstMatchStep(lc: string, table: seq<(string, Descriptor)>, i: int)
    requires 0 <= i < |table|
    ensures FirstMatch(lc, table[i..]) ==
      if KeyMatches(lc, table[i].0) then Some(table[i].1) else FirstMatch(lc, table[i + 1..])
  {
    assert table[i..][0] == table[i];
    assert table[i..][1..] == table[i + 1..];
  }

  /** The scan's answer is tagged `unknown` only when it is the `unknown` default itself. */
  lemma OnlyUnknownIsUnknown(lc: string)
    ensures FirstMatch(lc, Responses).GetOr(Unknown).action == "unknown" ==> FirstMatch(lc, Responses).GetOr(Unknown) == Unknown
  {
    CannedActions();
  }

  /** At most one index is the first match. */
  lemma FirstMatchUnique(lc: string, table: seq<(string, Descriptor)>, i: int, k: int)
    requires IsFirstMatch(lc, table, i) && IsFirstMatch(lc, table, k)
    ensures i == k
  {
  }

  /** The three fallback tiers applied to the lower-cased command. */
  function Fallback(lc: string): (r: Descriptor)
    ensures r.action == "suggestion" || r.action == "unknown"
    ensures r.action == "unknown" <==> r == Unknown
  {
    if Contains(lc, "add") then AddSuggestion
    else if Contains(lc, "change") || Contains(lc, "color") then ColorSuggestion
    else if Contains(lc, "light") || Contains(lc, "bright") then LightingSuggestion
    else Unknown
  }

  /** The descriptor the resolver chooses for `command`. */
  function Resolve(command: string): (r: Descriptor)
    ensures r.action == "unknown" <==> r == Unknown
  {
    var lc := LowerStr(command);
    var matched := FirstMatch(lc, Responses).GetOr(Unknown);
    if matched.action == "unknown" then Fallback(lc) else matched
  }

  /**
   * `POST` without the JSON decoding, logging and delay. `command` is the
   * request's `command` field; `None` stands for a field that is missing or
   * not a string, on which `toLowerCase` throws.
   */
  method Post(command: Option<string>) returns (reply: Reply)
    ensures command.None? ==> reply == FailureReply
    ensures command.Some? ==>
      && reply.Succeeded?
      && reply.data == Resolve(command.value)
      && reply.response == reply.data.message
      && reply.action == reply.data.action
  {
    if command.None? {
      return FailureReply;
    }
    var lc := LowerStr(command.value);
    var response := Unknown;
    var i := 0;
    while i < |Responses|
      invariant 0 <= i <= |Responses|
      invariant response == Unknown
      invariant FirstMatch(lc, Responses) == FirstMatch(lc, Responses[i..])
    {
      var (key, value) := Responses[i];
      KeysAreLowerCase();
      FirstMatchStep(lc, Responses, i);
      if Contains(lc, LowerStr(key)) {
        response := value;
        break;
      }
      i := i + 1;
    }
    assert response == FirstMatch(lc, Responses).GetOr(Unknown);
    if response.action == "unknown" {
      OnlyUnknownIsUnknown(lc);
      if Contains(lc, "add") {
        response := AddSuggestion;
      } else if Contains(lc, "change") || Contains(lc, "color") {
        response := ColorSuggestion;
      } else if Contains(lc, "light") || Contains(lc, "bright") {
        response := LightingSuggestion;
      }
      assert response == Fallback(lc);
    }
    assert response == Resolve(command.value);
    reply := Succeeded(response.message, response.action, response);
  }

  /** The table keys are already lower case, so `key.toLowerCase()` is the key itself. */
  lemma KeysAreLowerCase()
    ensures forall i :: 0 <= i < |Responses| ==> LowerStr(Responses[i].0) == Responses[i].0
  {
    forall i | 0 <= i < |Responses| ensures LowerStr(Responses[i].0) == Responses[i].0 {
      assert NoUpper(Responses[i].0);
      NoUpperLowerStr(Responses[i].0);
    }
  }

  /** No canned descriptor is tagged `unknown` or `suggestion`. */
  lemma CannedActions()
    ensures forall i :: 0 <= i < |Responses| ==>
      Responses[i].1.action != "unknown" && Responses[i].1.action != "suggestion"
  {
    assert Responses[0].1.action == "add_furniture";
    assert Responses[1].1.action == "change_wall_color";
    assert Responses[2].1.action == "add_decoration";
    assert Responses[3].1.action == "adjust_lighting";
    assert Responses[4].1.action == "add_furniture";
  }

  /** The earliest-declared key that occurs in the lower-cased command decides the descriptor. */
  lemma EarliestKeyWins(command: string, i: int)
    requires IsFirstMatch(LowerStr(command), Responses, i)
    ensures Resolve(command) == Responses[i].1
  {
    var lc := LowerStr(command);
    var r := FirstMatch(lc, Responses);
    var k :| IsFirstMatch(lc, Responses, k) && r.value == Responses[k].1;
    FirstMatchUnique(lc, Responses, i, k);
    CannedActions();
  }

  /** Matching ignores the case of ASCII letters in the command. */
  lemma CaseInsensitive(command: string)
    ensures Resolve(command) == Resolve(LowerStr(command))
  {
    LowerStrIdempotent(command);
  }

  /** A command containing "add sofa" in any case adds the modern gray sofa. */
  lemma AddSofaAnywhere(command: string)
    requires Contains(LowerStr(command), "add sofa")
    ensures Resolve(command) == AddSofa
    ensures Resolve(command).action == "add_furniture" && Resolve(command).item == Some("modern_sofa")
    ensures Resolve(command).style == Some("modern") && Resolve(command).color == Some("gray")
  {
    assert IsFirstMatch(LowerStr(command), Responses, 0);
    EarliestKeyWins(command, 0);
  }

  /** When no key occurs, the three fallback tiers decide, in their fixed order. */
  lemma FallbackTiers(command: string)
    requires NoKeyMatches(LowerStr(command), Responses)
    ensures var lc := LowerStr(command);
      && (Contains(lc, "add") ==> Resolve(command) == AddSuggestion)
      && (!Contains(lc, "add") && (Contains(lc, "change") || Contains(lc, "color")) ==>
            Resolve(command) == ColorSuggestion)
      && ((!Contains(lc, "add") && !Contains(lc, "change") && !Contains(lc, "color")
            && (Contains(lc, "light") || Contains(lc, "bright"))) ==> Resolve(command) == LightingSuggestion)
      && ((!Contains(lc, "add") && !Contains(lc, "change") && !Contains(lc, "color")
            && !Contains(lc, "light") && !Contains(lc, "bright")) ==> Resolve(command) == Unknown)
  {
  }

  /** The fallback tiers fire exactly when no table key occurs in the command. */
  lemma FallbackIffNoKey(command: string)
    ensures Resolve(command).action in {"suggestion", "unknown"}
      <==> NoKeyMatches(LowerStr(command), Responses)
  {
    var lc := LowerStr(command);
    CannedActions();
    if !NoKeyMatches(lc, Responses) {
      var r := FirstMatch(lc, Responses);
      var k :| IsFirstMatch(lc, Responses, k) && r.value == Responses[k].1;
      assert Resolve(command) == Responses[k].1;
    }
  }

  /** The empty command is answered with the "be more specific" descriptor. */
  lemma EmptyCommandIsUnknown()
    ensures Resolve("") == Unknown
  {
    assert NoKeyMatches("", Responses);
  }

  /** With several keys present the first-declared one wins: the sofa, not the coffee table. */
  lemma SofaBeforeCoffeeTable(c: string)
    requires c == "add sofa and add coffee table"
    ensures Resolve(c) == AddSofa
  {
    SofaCommandKeys(c);
    AddSofaAnywhere(c);
  }

  /** "add sofa and add coffee table" is lower case and starts with the first key. */
  lemma SofaCommandKeys(c: string)
    requires c == "add sofa and add coffee table"
    ensures LowerStr(c) == c
    ensures Contains(c, "add sofa")
  {
    SofaCommandIsLower(c);
    assert StartsWith(c, "add sofa");
  }

  /** "add sofa and add coffee table" has no capitals. */
  lemma SofaCommandIsLower(c: string)
    requires c == "add sofa and add coffee table"
    ensures LowerStr(c) == c
  {
    assert NoUpper(c);
    NoUpperLowerStr(c);
  }

  /** "add plant" is declared before "make it brighter", so the plant is added. */
  lemma PlantBeforeBrighter(c: string)
    requires c == "add plant, make it brighter"
    ensures Resolve(c) == AddPlant
    ensures Resolve(c).action == "add_decoration"
  {
    assert NoUpper(c);
    NoUpperLowerStr(c);
    PlantCommandKeys(c);
    AddPlantWins(c);
  }

  /** Without "add sofa" or "change wall color", a command containing "add plant" adds the plant. */
  lemma AddPlantWins(command: string)
    requires var lc := LowerStr(command);
      !Contains(lc, "add sofa") && !Contains(lc, "change wall color") && Contains(lc, "add plant")
    ensures Resolve(command) == AddPlant
  {
    assert IsFirstMatch(LowerStr(command), Responses, 2);
    EarliestKeyWins(command, 2);
  }

  /** Which of the first three keys occur in "add plant, make it brighter". */
  lemma PlantCommandKeys(c: string)
    requires c == "add plant, make it brighter"
    ensures !Contains(c, "add sofa") && !Contains(c, "change wall color") && Contains(c, "add plant")
  {
    PlantCommandLacksSofa(c);
    PlantCommandLacksWallColor(c);
    PlantCommandHasPlant(c);
  }

  /** The first key does not occur: the command has no 's'. */
  lemma PlantCommandLacksSofa(c: string)
    requires c == "add plant, make it brighter"
    ensures !Contains(c, "add sofa")
  {
    MissingChar(c, "add sofa", 's');
  }

  /** The second key does not occur: the command has no 'o', and neither the word "color". */
  lemma PlantCommandLacksWallColor(c: string)
    requires c == "add plant, make it brighter"
    ensures !Contains(c, "change wall color")
    ensures !Contains(c, "color")
  {
    MissingChar(c, "change wall color", 'o');
    MissingChar(c, "color", 'o');
  }

  /** The third key occurs at the start of the command. */
  lemma PlantCommandHasPlant(c: string)
    requires c == "add plant, make it brighter"
    ensures Contains(c, "add plant")
  {
    assert StartsWith(c, "add plant");
  }
}
