/**
 * The game state and the turn: `PlayerState`, the `AdventureGame`
 * methods that change it (`add_to_history`, `initialize_story`,
 * `make_choice`), the death check `process_choice` runs after a choice
 * and the reset of `restart_game`.
 *
 * Each state-changing method is tied to a pure transition on a
 * `TurnState` value (player snapshot and history); what a turn promises
 * is proved about those transitions.
 */
module Game {
  import opened Wrappers
  import opened History
  import opened Scenes
  import opened Generation

  /** The player's stats as `PlayerState()` sets them. */
  const InitialPlayer: Snapshot := Snapshot(100, 0, [], 0)

  /** `PlayerState`: the stats a choice updates in place. */
  class PlayerState {
    var health: int
    var gold: int
    var inventory: seq<string>
    var step: nat

    /** `PlayerState()`: health 100, no gold, an empty inventory, step 0. */
    constructor()
      ensures ToDict() == InitialPlayer
    {
      health := 100;
      gold := 0;
      inventory := [];
      step := 0;
    }

    /** `to_dict()`. */
    function ToDict(): Snapshot
      reads this
    {
      Snapshot(health, gold, inventory, step)
    }
  }

  /** What the engine keeps between turns: the player's stats and the conversation history. */
  datatype TurnState = TurnState(player: Snapshot, history: seq<Message>)

  /** The state invariant: the step never passes the limit and the history stays within ten entries. */
  predicate Sound(s: TurnState)
  {
    s.player.step <= MaxSteps && |s.history| <= HistoryLimit
  }

  /**
   * What `make_choice` does once the state is updated: return an ending
   * built at once (no request), raise at `scene["choices"][choice_num - 1]`,
   * or return `get_next_scene()` for the new state.
   */
  datatype Outcome =
    | Ends(scene: Value)
    | Crashes(crash: Crash)
    | Continues

  /** The state after a choice and what the choice does next. */
  datatype Transition = Transition(after: TurnState, outcome: Outcome)

  /** The stats after applying `e`: additive health and gold (absent counts 0), items appended, one step more. */
  function Apply(p: Snapshot, e: Effect): (q: Snapshot)
    ensures q.health - p.health == e.health.GetOr(0)
    ensures q.gold - p.gold == e.gold.GetOr(0)
    ensures |q.inventory| == |p.inventory| + |e.items.GetOr([])|
    ensures q.inventory[..|p.inventory|] == p.inventory && q.inventory[|p.inventory|..] == e.items.GetOr([])
    ensures q.step == p.step + 1
  {
    Snapshot(p.health + e.health.GetOr(0), p.gold + e.gold.GetOr(0), p.inventory + e.items.GetOr([]), p.step + 1)
  }

  /**
   * `make_choice(choice_num, scene)` as a transition. At the step limit,
   * the conclusion ending and no change. A scene that fails validation
   * gives the disruption ending and no change. Otherwise the effect is
   * applied, the scene is recorded as an assistant entry, and then
   * either the choice text cannot be read (the exception escapes after
   * those updates) or the choice is recorded as a user entry and the
   * next scene is asked for.
   */
  function ChoiceTransition(codec: Codec, s: TurnState, choiceNum: int, scene: Value): Transition
  {
    if s.player.step >= MaxSteps then
      Transition(s, Ends(GameOverScene(ConclusionMessage, s.player)))
    else
      match SelectEffect(scene, choiceNum)
      case Failure(f) =>
        Transition(s, Ends(GameOverScene(DisruptionMessage(f), s.player)))
      case Success(e) =>
        var p := Apply(s.player, e);
        var h := Record(s.history, Message(Assistant, codec.dumps(scene.scene)));
        match ChoiceText(scene.scene.choices, choiceNum)
        case Failure(c) => Transition(TurnState(p, h), Crashes(c))
        case Success(text) =>
          Transition(TurnState(p, Record(h, Message(User, ChoiceReport(codec.quote, text, p)))), Continues)
  }

  /** At the step limit a choice changes nothing and ends with the conclusion ending. */
  lemma ChoiceAtLimit(codec: Codec, s: TurnState, choiceNum: int, scene: Value)
    requires s.player.step >= MaxSteps
    ensures ChoiceTransition(codec, s, choiceNum, scene) == Transition(s, Ends(GameOverScene(ConclusionMessage, s.player)))
  {
  }

  /** A scene that fails validation changes nothing and ends with the disruption ending naming the fault. */
  lemma ChoiceOnBadScene(codec: Codec, s: TurnState, choiceNum: int, scene: Value)
    requires s.player.step < MaxSteps && SelectEffect(scene, choiceNum).Failure?
    ensures var f := SelectEffect(scene, choiceNum).error;
      ChoiceTransition(codec, s, choiceNum, scene) == Transition(s, Ends(GameOverScene(DisruptionMessage(f), s.player)))
  {
  }

  /**
   * A valid choice applies its effect and records the scene. It crashes
   * exactly when the choice text cannot be read, with those updates
   * already made; otherwise the choice report is recorded as well and
   * the next scene is asked for.
   */
  lemma ChoiceApplied(codec: Codec, s: TurnState, choiceNum: int, scene: Value)
    requires s.player.step < MaxSteps && SelectEffect(scene, choiceNum).Success?
    ensures var t := ChoiceTransition(codec, s, choiceNum, scene);
      var p := Apply(s.player, SelectEffect(scene, choiceNum).value);
      var h := Record(s.history, Message(Assistant, codec.dumps(scene.scene)));
      var choice := ChoiceText(scene.scene.choices, choiceNum);
      && t.after.player == p
      && (choice.Failure? ==> t == Transition(TurnState(p, h), Crashes(choice.error)))
      && (choice.Success? ==>
            t == Transition(TurnState(p, Record(h, Message(User, ChoiceReport(codec.quote, choice.value, p)))), Continues))
  {
  }

  /** Only a valid choice crashes, and only when its text cannot be read. */
  lemma ChoiceCrashes(codec: Codec, s: TurnState, choiceNum: int, scene: Value)
    ensures ChoiceTransition(codec, s, choiceNum, scene).outcome.Crashes? <==>
              s.player.step < MaxSteps && SelectEffect(scene, choiceNum).Success?
              && ChoiceText(scene.scene.choices, choiceNum).Failure?
  {
  }

  /**
   * A choice either leaves the state as it was or advances the step by
   * exactly one; an ending built at once is terminal; and the state
   * invariant is kept.
   */
  lemma ChoiceKeepsSound(codec: Codec, s: TurnState, choiceNum: int, scene: Value)
    ensures var t := ChoiceTransition(codec, s, choiceNum, scene);
      && (t.after == s || t.after.player.step == s.player.step + 1)
      && (t.outcome.Ends? ==> t.after == s && IsTerminal(t.outcome.scene))
      && (Sound(s) ==> Sound(t.after))
  {
    if s.player.step < MaxSteps && SelectEffect(scene, choiceNum).Success? {
      var h := Record(s.history, Message(Assistant, codec.dumps(scene.scene)));
      RecordShape(s.history, Message(Assistant, codec.dumps(scene.scene)));
      match ChoiceText(scene.scene.choices, choiceNum)
      case Failure(_) =>
      case Success(text) =>
        RecordShape(h, Message(User, ChoiceReport(codec.quote, text, Apply(s.player, SelectEffect(scene, choiceNum).value))));
    }
  }

  /**
   * A choice that is read ends the history with the scene and then the
   * choice report, which shows the updated stats.
   */
  lemma ChoiceRecordsSceneThenChoice(codec: Codec, s: TurnState, choiceNum: int, scene: Value)
    requires s.player.step < MaxSteps && SelectEffect(scene, choiceNum).Success?
    requires ChoiceText(scene.scene.choices, choiceNum).Success?
    ensures var t := ChoiceTransition(codec, s, choiceNum, scene);
      var h := t.after.history;
      && t.outcome == Continues
      && |h| >= 2
      && h[|h| - 2] == Message(Assistant, codec.dumps(scene.scene))
      && h[|h| - 1] == Message(User, ChoiceReport(codec.quote, ChoiceText(scene.scene.choices, choiceNum).value, t.after.player))
  {
    var e := SelectEffect(scene, choiceNum).value;
    var p := Apply(s.player, e);
    var text := ChoiceText(scene.scene.choices, choiceNum).value;
    RecordTwice(s.history, Message(Assistant, codec.dumps(scene.scene)), Message(User, ChoiceReport(codec.quote, text, p)));
  }

  /** How a choice ends: with a scene and the requests spent on it, or with the exception. */
  datatype ChoiceResult =
    | Completed(generated: Generated)
    | Crashed(crash: Crash)

  /** What `make_choice` returns for an outcome, `p` being the updated stats. */
  function Respond(loads: string -> Option<Value>, o: Outcome, p: Snapshot, replies: seq<Response>): ChoiceResult
  {
    match o
    case Ends(v) => Completed(Generated(v, 0))
    case Crashes(c) => Crashed(c)
    case Continues => Completed(NextScene(loads, p, replies))
  }

  /**
   * The check `process_choice` makes after the choice returns: with
   * health at or below zero, the "perished" ending with the current
   * stats replaces the scene. A crashed choice never reaches it.
   */
  function DeathCheck(r: ChoiceResult, p: Snapshot): ChoiceResult
  {
    if r.Completed? && p.health <= 0 then Completed(Generated(GameOverScene(PerishedMessage, p), r.generated.requests))
    else r
  }

  /**
   * The death check replaces the scene exactly when a completed choice
   * leaves health at or below zero, and it keeps the number of requests
   * the turn spent.
   */
  lemma DeathOverride(r: ChoiceResult, p: Snapshot)
    ensures var d := DeathCheck(r, p);
      && d.Completed? == r.Completed?
      && (r.Completed? ==> d.generated.requests == r.generated.requests)
      && (r.Completed? && p.health <= 0 ==> IsTerminal(d.generated.scene) && d.generated.scene == GameOverScene(PerishedMessage, p))
      && (r.Crashed? || p.health > 0 ==> d == r)
  {
  }

  /** One click of a choice button: the choice number and the scene it was shown on. */
  datatype Turn = Turn(choiceNum: int, scene: Value)

  /**
   * The state after the player makes the choices `turns` in order. The
   * death check changes no state. A crashed choice ends the play: its
   * worker thread died with the loading flag still set, so later clicks
   * are ignored.
   */
  function Play(codec: Codec, s: TurnState, turns: seq<Turn>): TurnState
    decreases |turns|
  {
    if |turns| == 0 then s
    else
      var t := ChoiceTransition(codec, s, turns[0].choiceNum, turns[0].scene);
      if t.outcome.Crashes? then t.after else Play(codec, t.after, turns[1..])
  }

  /** Any sequence of choices keeps the state invariant, so the step never passes `MAX_STEPS`. */
  lemma {:induction false} PlayKeepsSound(codec: Codec, s: TurnState, turns: seq<Turn>)
    requires Sound(s)
    ensures Sound(Play(codec, s, turns))
    decreases |turns|
  {
    if |turns| > 0 {
      var t := ChoiceTransition(codec, s, turns[0].choiceNum, turns[0].scene);
      ChoiceKeepsSound(codec, s, turns[0].choiceNum, turns[0].scene);
      if !t.outcome.Crashes? {
        PlayKeepsSound(codec, t.after, turns[1..]);
      }
    }
  }

  /** Each choice adds at most one step: after `n` choices the step has grown by at most `n`. */
  lemma {:induction false} PlayStepGrowth(codec: Codec, s: TurnState, turns: seq<Turn>)
    ensures s.player.step <= Play(codec, s, turns).player.step <= s.player.step + |turns|
    decreases |turns|
  {
    if |turns| > 0 {
      var t := ChoiceTransition(codec, s, turns[0].choiceNum, turns[0].scene);
      ChoiceKeepsSound(codec, s, turns[0].choiceNum, turns[0].scene);
      if !t.outcome.Crashes? {
        PlayStepGrowth(codec, t.after, turns[1..]);
      }
    }
  }

  /**
   * Choices that all pass validation and whose texts can all be read add
   * exactly one step each while the limit is not reached: `MAX_STEPS`
   * such choices from step 0 end at step `MAX_STEPS`.
   */
  lemma {:induction false} PlayValidStepsExact(codec: Codec, s: TurnState, turns: seq<Turn>)
    requires s.player.step + |turns| <= MaxSteps
    requires forall k :: 0 <= k < |turns| ==>
               && SelectEffect(turns[k].scene, turns[k].choiceNum).Success?
               && ChoiceText(turns[k].scene.scene.choices, turns[k].choiceNum).Success?
    ensures Play(codec, s, turns).player.step == s.player.step + |turns|
    decreases |turns|
  {
    if |turns| > 0 {
      var t := ChoiceTransition(codec, s, turns[0].choiceNum, turns[0].scene);
      ChoiceApplied(codec, s, turns[0].choiceNum, turns[0].scene);
      assert forall k :: 0 <= k < |turns[1..]| ==> turns[1..][k] == turns[k + 1];
      PlayValidStepsExact(codec, t.after, turns[1..]);
    }
  }

  /** Once the step limit is reached, no choice changes the stats or the history again. */
  lemma {:induction false} PlayFrozenAtLimit(codec: Codec, s: TurnState, turns: seq<Turn>)
    requires s.player.step >= MaxSteps
    ensures Play(codec, s, turns) == s
    decreases |turns|
  {
    if |turns| > 0 {
      ChoiceAtLimit(codec, s, turns[0].choiceNum, turns[0].scene);
      PlayFrozenAtLimit(codec, s, turns[1..]);
    }
  }

  /** `AdventureGame`: the player, the conversation history and the codec the turn engine uses. */
  class AdventureGame {
    /** `json.loads`, `json.dumps` and `repr` of a string. */
    const codec: Codec
    /** The dungeon-master instructions that open every conversation. */
    const systemPrompt: string
    var player: PlayerState
    var history: seq<Message>

    /** The state as a value. */
    function State(): TurnState
      reads this, player
    {
      TurnState(player.ToDict(), history)
    }

    ghost predicate Valid()
      reads this, player
    {
      Sound(State())
    }

    /** `AdventureGame(gui)` without the client: a fresh player and an empty history. */
    constructor(codec: Codec, systemPrompt: string)
      ensures Valid() && fresh(player)
      ensures this.codec == codec && this.systemPrompt == systemPrompt
      ensures State() == TurnState(InitialPlayer, [])
    {
      this.codec := codec;
      this.systemPrompt := systemPrompt;
      player := new PlayerState();
      history := [];
    }

    /** `add_to_history(role, content)`: append, then cut back to entry 0 and the last nine past ten entries. */
    method AddToHistory(role: Role, content: string)
      requires Valid()
      modifies this
      ensures Valid()
      ensures history == Record(old(history), Message(role, content))
      ensures player == old(player)
    {
      RecordShape(history, Message(role, content));
      history := history + [Message(role, content)];
      if |history| > HistoryLimit {
        history := [history[0]] + history[|history| - KeptRecent..];
      }
    }

    /** `initialize_story()`: the system entry with the current stats, the start request, then the first scene. */
    method InitializeStory(replies: seq<Response>) returns (g: Generated)
      requires Valid()
      modifies this
      ensures Valid()
      ensures player == old(player)
      ensures history ==
                Record(Record(old(history), Message(System, SystemEntry(systemPrompt, codec.quote, player.ToDict()))),
                       Message(User, StartMessage))
      ensures g == NextScene(codec.loads, player.ToDict(), replies)
    {
      AddToHistory(System, SystemEntry(systemPrompt, codec.quote, player.ToDict()));
      AddToHistory(User, StartMessage);
      g := GetNextScene(replies);
    }

    /** `get_next_scene()` for the current stats: one to four requests, and the scene `NextScene` gives. */
    method GetNextScene(replies: seq<Response>) returns (g: Generated)
      ensures 1 <= g.requests <= MaxRetries + 1
      ensures g == NextScene(codec.loads, player.ToDict(), replies)
    {
      g := NextScene(codec.loads, player.ToDict(), replies);
    }

    /**
     * `make_choice(choice_num, scene)` up to its last line: the guards,
     * the updates in place and the two history entries, returning what
     * the choice does next.
     */
    method UpdateForChoice(choiceNum: int, scene: Value) returns (o: Outcome)
      requires Valid()
      modifies this, player
      ensures Valid() && player == old(player)
      ensures ChoiceTransition(codec, old(State()), choiceNum, scene) == Transition(State(), o)
    {
      ChoiceKeepsSound(codec, State(), choiceNum, scene);
      if player.step >= MaxSteps {
        return Ends(GameOverScene(ConclusionMessage, player.ToDict()));
      }
      var selected := SelectEffect(scene, choiceNum);
      if selected.Failure? {
        return Ends(GameOverScene(DisruptionMessage(selected.error), player.ToDict()));
      }
      var e := selected.value;
      player.health := player.health + e.health.GetOr(0);
      player.gold := player.gold + e.gold.GetOr(0);
      player.inventory := player.inventory + e.items.GetOr([]);
      player.step := player.step + 1;
      AddToHistory(Assistant, codec.dumps(scene.scene));
      var choice := ChoiceText(scene.scene.choices, choiceNum);
      if choice.Failure? {
        return Crashes(choice.error);
      }
      AddToHistory(User, ChoiceReport(codec.quote, choice.value, player.ToDict()));
      o := Continues;
    }

    /** `make_choice(choice_num, scene)`: the updates, then the ending, the exception or `get_next_scene()`. */
    method MakeChoice(choiceNum: int, scene: Value, replies: seq<Response>) returns (r: ChoiceResult)
      requires Valid()
      modifies this, player
      ensures Valid() && player == old(player)
      ensures var t := ChoiceTransition(codec, old(State()), choiceNum, scene);
        State() == t.after && r == Respond(codec.loads, t.outcome, player.ToDict(), replies)
    {
      var o := UpdateForChoice(choiceNum, scene);
      match o
      case Ends(v) =>
        r := Completed(Generated(v, 0));
      case Crashes(c) =>
        r := Crashed(c);
      case Continues =>
        var g := GetNextScene(replies);
        r := Completed(g);
    }

    /** `process_choice(choice_num)`: the choice, then the death check. */
    method ProcessChoice(choiceNum: int, scene: Value, replies: seq<Response>) returns (r: ChoiceResult)
      requires Valid()
      modifies this, player
      ensures Valid() && player == old(player)
      ensures var t := ChoiceTransition(codec, old(State()), choiceNum, scene);
        State() == t.after && r == DeathCheck(Respond(codec.loads, t.outcome, player.ToDict(), replies), player.ToDict())
    {
      r := MakeChoice(choiceNum, scene, replies);
      if r.Completed? && player.health <= 0 {
        r := Completed(Generated(GameOverScene(PerishedMessage, player.ToDict()), r.generated.requests));
      }
    }

    /** `restart_game()`: a fresh player and an empty history, then a new story. */
    method RestartGame(replies: seq<Response>) returns (g: Generated)
      modifies this
      ensures Valid() && fresh(player)
      ensures State() == TurnState(InitialPlayer, [
                Message(System, SystemEntry(systemPrompt, codec.quote, InitialPlayer)),
                Message(User, StartMessage)])
      ensures g == NextScene(codec.loads, InitialPlayer, replies)
    {
      player := new PlayerState();
      history := [];
      g := InitializeStory(replies);
    }
  }
}
