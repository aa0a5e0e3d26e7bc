/**
 * The values the turn engine passes around: the decoded scene (a JSON
 * object with "story", "choices" and "effects"), the player snapshot of
 * `PlayerState.to_dict`, and the terminal scenes `end_game` builds from a
 * message and the player's final stats.
 */
module Scenes {
  import opened Wrappers
  import Text
  import Decimal

  /** One entry of a scene's "effects" object; an absent key is `None`. */
  datatype Effect = Effect(health: Option<int>, gold: Option<int>, items: Option<seq<string>>)

  /** A scene object; each of its three keys may be absent. */
  datatype Scene = Scene(
    story: Option<string>,
    choices: Option<seq<string>>,
    effects: Option<map<string, Effect>>)

  /** What `json.loads` can hand the engine: an object, or some other JSON value. */
  datatype Value = Dict(scene: Scene) | NonDict

  /** The abstract JSON codec and Python's `repr` of a string, as the engine uses them. */
  datatype Codec = Codec(
    loads: string -> Option<Value>,
    dumps: Scene -> string,
    quote: string -> string)

  /** A scene that ends the game: no choices and no effects. */
  predicate IsTerminal(v: Value)
  {
    v.Dict? && v.scene.choices == Some([]) && v.scene.effects == Some(map[])
  }

  /** The dictionary `PlayerState.to_dict` returns. */
  datatype Snapshot = Snapshot(health: int, gold: int, inventory: seq<string>, step: nat)

  // ---------------------------------------------------------------------
  // Texts the engine writes
  // ---------------------------------------------------------------------

  /** `str(inventory)`: the `repr` of each item, comma-separated, in brackets. */
  function ListText(quote: string -> string, inventory: seq<string>): string
  {
    var items := seq(|inventory|, k requires 0 <= k < |inventory| => quote(inventory[k]));
    "[" + Text.Join(items, ", ") + "]"
  }

  /** One `key: value` part of a dictionary text, followed by the rest of the text. */
  function Field(key: string, value: string, rest: string): string
  {
    key + (value + rest)
  }

  /** `str(player.to_dict())`, the form in which the state reaches the prompt. */
  function ShowSnapshot(quote: string -> string, p: Snapshot): string
  {
    Field("{'health': ", Decimal.IntToString(p.health),
      Field(", 'gold': ", Decimal.IntToString(p.gold),
        Field(", 'inventory': ", ListText(quote, p.inventory),
          Field(", 'step': ", Decimal.IntToString(p.step), "}"))))
  }

  /** Dropping a common prefix keeps two equal texts equal. */
  lemma PrefixCancel(h: string, u: string, v: string)
    requires h + u == h + v
    ensures u == v
  {
    assert u == (h + u)[|h|..];
    assert v == (h + v)[|h|..];
  }

  /** Two equal field texts with the same key hold the same value text when their values have equal length. */
  lemma FieldCancel(key: string, u: string, v: string, x: string, y: string)
    requires Field(key, u, x) == Field(key, v, y) && |u| == |v|
    ensures u == v && x == y
  {
    var t := Field(key, u, x);
    assert u + x == t[|key|..];
    assert v + y == t[|key|..];
    assert u == (u + x)[..|u|] && v == (v + y)[..|v|];
    assert x == (u + x)[|u|..] && y == (v + y)[|v|..];
  }

  /**
   * Two equal field texts with the same key and a number as value hold
   * the same number, when what follows does not start with a numeral.
   */
  lemma NumberFieldCancel(key: string, i: int, j: int, x: string, y: string)
    requires Field(key, Decimal.IntToString(i), x) == Field(key, Decimal.IntToString(j), y)
    requires |x| > 0 && |y| > 0 && !Decimal.IsNumeral(x[0]) && !Decimal.IsNumeral(y[0])
    ensures i == j && x == y
  {
    var t := Field(key, Decimal.IntToString(i), x);
    assert Decimal.IntToString(i) + x == t[|key|..] == Decimal.IntToString(j) + y;
    if i != j {
      Decimal.DelimitedDiffer(i, j, x, y);
    }
    FieldCancel(key, Decimal.IntToString(i), Decimal.IntToString(j), x, y);
  }

  /**
   * The state text tells snapshots apart: equal texts mean equal health
   * and gold, and, for the same inventory, the same step.
   */
  lemma ShowSnapshotDistinguishes(quote: string -> string, p: Snapshot, q: Snapshot)
    requires ShowSnapshot(quote, p) == ShowSnapshot(quote, q)
    ensures p.health == q.health && p.gold == q.gold
    ensures p.inventory == q.inventory ==> p.step == q.step
  {
    var stepP := Field(", 'step': ", Decimal.IntToString(p.step), "}");
    var stepQ := Field(", 'step': ", Decimal.IntToString(q.step), "}");
    var inventoryP := Field(", 'inventory': ", ListText(quote, p.inventory), stepP);
    var inventoryQ := Field(", 'inventory': ", ListText(quote, q.inventory), stepQ);
    var goldP := Field(", 'gold': ", Decimal.IntToString(p.gold), inventoryP);
    var goldQ := Field(", 'gold': ", Decimal.IntToString(q.gold), inventoryQ);
    assert goldP[0] == ',' && goldQ[0] == ',';
    NumberFieldCancel("{'health': ", p.health, q.health, goldP, goldQ);
    assert inventoryP[0] == ',' && inventoryQ[0] == ',';
    NumberFieldCancel(", 'gold': ", p.gold, q.gold, inventoryP, inventoryQ);
    if p.inventory == q.inventory {
      FieldCancel(", 'inventory': ", ListText(quote, p.inventory), ListText(quote, q.inventory), stepP, stepQ);
      NumberFieldCancel(", 'step': ", p.step, q.step, "}", "}");
    }
  }

  /** `', '.join(inventory)`, or "None" for an empty inventory. */
  function InventoryText(inventory: seq<string>): string
  {
    if |inventory| == 0 then "None" else Text.Join(inventory, ", ")
  }

  /** The "Final Stats" block of an ending. */
  function StatsText(p: Snapshot): string
  {
    "Final Stats:\nHealth: " + Decimal.IntToString(p.health)
    + "\nGold: " + Decimal.IntToString(p.gold)
    + "\nInventory: " + InventoryText(p.inventory)
  }

  /**
   * `end_game(game_over_message)` for a non-empty message: the message,
   * a blank line and the player's live final stats, in a terminal scene.
   */
  function GameOverScene(message: string, p: Snapshot): (v: Value)
    ensures IsTerminal(v) && v.scene.story.Some?
  {
    Dict(Scene(Some(message + "\n\n" + StatsText(p)), Some([]), Some(map[])))
  }

  /** The story of a message ending starts with the message and ends with the live stats. */
  lemma GameOverStory(message: string, p: Snapshot)
    ensures var story := GameOverScene(message, p).scene.story.value;
      && message <= story
      && |story| >= |StatsText(p)| && story[|story| - |StatsText(p)|..] == StatsText(p)
  {
    var story := message + "\n\n" + StatsText(p);
    assert story[|story| - |StatsText(p)|..] == StatsText(p);
  }

  const ConclusionMessage: string :=
    "Your epic journey has reached its conclusion...\n\n"
    + "As you reflect on your adventures, you realize how far you've come."
  const UnexpectedErrorMessage: string := "An unexpected error occurred. The adventure ends here."
  const EndingFailedMessage: string := "Your adventure comes to an end..."
  const PerishedMessage: string := "You have perished in your quest!"
  const StartMessage: string := "Start the adventure!"

  /** Why `make_choice` refuses a scene; each is raised as a `KeyError`. */
  datatype Fault = InvalidFormat | MissingEffects | MissingChoice(choiceNum: int)

  /** `str(e)` of the `KeyError`: the repr of its argument, in single quotes. */
  function FaultNote(f: Fault): string
  {
    match f
    case InvalidFormat => "'Invalid scene format'"
    case MissingEffects => "'Missing effects'"
    case MissingChoice(n) => "'Missing choice " + Decimal.IntToString(n) + "'"
  }

  /** The in-story message for a refused scene, ending with the technical note. */
  function DisruptionMessage(f: Fault): string
  {
    "A mysterious force disrupts your adventure...\n\n"
    + "The ancient scrolls seem to have become illegible, "
    + "but your journey was still a memorable one!\n\n"
    + "Technical note: " + FaultNote(f)
  }

  /**
   * The story returned once the repair attempts are used up. It is a
   * plain string, not an f-string: its stats lines carry the braces and
   * attribute names literally and no live values.
   */
  const FallbackStory: string :=
    "\n\U{1F916} EMERGENCY STORY CONCLUSION PROTOCOL ACTIVATED! \U{1F916}\n\n"
    + "Suddenly, a wild developer appears!\n"
    + "'Oh no! The story matrix has become corrupted!' they exclaim.\n"
    + "'But fear not, for your adventure was automatically backed up to the cloud!'\n\n"
    + "Your character went on to become a successful cloud storage salesperson, \n"
    + "teaching other adventurers about the importance of data backup.\n\n"
    + "THE END (brought to you by Technical Difficulties\U{2122})\n\n"
    + FallbackStats

  /** The closing block of the fallback story, placeholders and trailing indentation included. */
  const FallbackStats: string :=
    "Final Stats:\n"
    + "Health: {self.player.health}\n"
    + "Gold: {self.player.gold}\n"
    + "Inventory: {', '.join(self.player.inventory) if self.player.inventory else 'None'}\n"
    + "                    "

  const FallbackScene: Value := Dict(Scene(Some(FallbackStory), Some([]), Some(map[])))

  /** The fallback ends the game, and its story shows the health placeholder, not a number. */
  lemma FallbackShowsPlaceholder()
    ensures IsTerminal(FallbackScene)
    ensures Text.Contains(FallbackStory, "Health: {self.player.health}")
  {
    var p := "Health: {self.player.health}";
    assert FallbackStats[13..13 + |p|] == p;
    assert Text.OccursAt(FallbackStats, p, 13);
    var intro := FallbackStory[..|FallbackStory| - |FallbackStats|];
    assert FallbackStory == intro + FallbackStats;
    Text.ContainsInSuffix(intro, FallbackStats, p);
  }

  // ---------------------------------------------------------------------
  // Reading a scene in make_choice
  // ---------------------------------------------------------------------

  /**
   * The validation of `make_choice`: the scene must be an object with
   * an "effects" entry holding the key `str(choice_num)`; the first test
   * that fails names the fault.
   */
  function SelectEffect(v: Value, choiceNum: int): (r: Result<Effect, Fault>)
    ensures r == Failure(InvalidFormat) <==> !v.Dict?
    ensures r == Failure(MissingEffects) <==> v.Dict? && v.scene.effects.None?
    ensures r.Success? <==>
              v.Dict? && v.scene.effects.Some? && Decimal.IntToString(choiceNum) in v.scene.effects.value
    ensures r.Success? ==> r.value == v.scene.effects.value[Decimal.IntToString(choiceNum)]
    ensures r.Failure? ==> r.error == InvalidFormat || r.error == MissingEffects || r.error == MissingChoice(choiceNum)
  {
    if !v.Dict? then Failure(InvalidFormat)
    else if v.scene.effects.None? then Failure(MissingEffects)
    else
      var key := Decimal.IntToString(choiceNum);
      if key in v.scene.effects.value then Success(v.scene.effects.value[key])
      else Failure(MissingChoice(choiceNum))
  }

  /** How `scene["choices"][choice_num - 1]` fails: no "choices" key, or an index outside the list. */
  datatype Crash = ChoicesMissing | ChoiceOutOfRange

  /**
   * `scene["choices"][choice_num - 1]` with Python's list indexing, where
   * a negative index counts from the end.
   */
  function ChoiceText(choices: Option<seq<string>>, choiceNum: int): (r: Result<string, Crash>)
    ensures choices.None? ==> r == Failure(ChoicesMissing)
    ensures choices.Some? ==> (r.Success? <==> 1 - |choices.value| <= choiceNum <= |choices.value|)
    ensures choices.Some? && r.Failure? ==> r.error == ChoiceOutOfRange
    ensures choices.Some? && 1 <= choiceNum <= |choices.value| ==>
              r == Success(choices.value[choiceNum - 1])
    ensures choices.Some? && 1 - |choices.value| <= choiceNum < 1 ==>
              r == Success(choices.value[|choices.value| + choiceNum - 1])
  {
    match choices
    case None => Failure(ChoicesMissing)
    case Some(c) =>
      var i := choiceNum - 1;
      if 0 <= i < |c| then Success(c[i])
      else if -|c| <= i < 0 then Success(c[|c| + i])
      else Failure(ChoiceOutOfRange)
  }

  /** The user message recorded after a choice. */
  function ChoiceReport(quote: string -> string, choice: string, p: Snapshot): string
  {
    "Choice made: " + choice + "\nNew player state: " + ShowSnapshot(quote, p)
  }

  /** The system message that opens a story. */
  function SystemEntry(prompt: string, quote: string -> string, p: Snapshot): string
  {
    prompt + "\n\nCurrent player state: " + ShowSnapshot(quote, p)
  }

  /**
   * The choice report and the opening system entry show the stats: for
   * the same choice, or the same prompt, equal texts mean equal health
   * and gold.
   */
  lemma EntriesShowStats(quote: string -> string, prompt: string, choice: string, p: Snapshot, q: Snapshot)
    ensures ChoiceReport(quote, choice, p) == ChoiceReport(quote, choice, q) ==> p.health == q.health && p.gold == q.gold
    ensures SystemEntry(prompt, quote, p) == SystemEntry(prompt, quote, q) ==> p.health == q.health && p.gold == q.gold
  {
    if ChoiceReport(quote, choice, p) == ChoiceReport(quote, choice, q) {
      PrefixCancel("Choice made: " + choice + "\nNew player state: ", ShowSnapshot(quote, p), ShowSnapshot(quote, q));
      ShowSnapshotDistinguishes(quote, p, q);
    }
    if SystemEntry(prompt, quote, p) == SystemEntry(prompt, quote, q) {
      PrefixCancel(prompt + "\n\nCurrent player state: ", ShowSnapshot(quote, p), ShowSnapshot(quote, q));
      ShowSnapshotDistinguishes(quote, p, q);
    }
  }
}
