/**
 * The rolling conversation history of `AdventureGame.add_to_history`:
 * every message is appended, and once the list holds more than ten
 * entries it is cut back to its first entry (the system prompt) followed
 * by the nine most recent ones.
 */
module History {

  /** The roles the engine writes into the history. */
  datatype Role = System | User | Assistant

  /** One `{"role": ..., "content": ...}` entry. */
  datatype Message = Message(role: Role, content: string)

  /** Longest history kept after an append. */
  const HistoryLimit: nat := 10
  /** Number of most recent entries kept beside entry 0 when cutting back. */
  const KeptRecent: nat := 9

  /** The history after `add_to_history` appends `m` to `h`. */
  function Record(h: seq<Message>, m: Message): seq<Message>
  {
    var appended := h + [m];
    if |appended| > HistoryLimit then
      [appended[0]] + appended[|appended| - KeptRecent..]
    else
      appended
  }

  /**
   * What one append promises: the new message comes last; a short list
   * simply grows; a list that would pass ten entries becomes its first
   * entry followed by the nine most recent, in order; the bound of ten
   * is kept and entry 0 survives.
   */
  lemma RecordShape(h: seq<Message>, m: Message)
    ensures var r := Record(h, m);
      && |r| > 0 && r[|r| - 1] == m
      && (|h| + 1 <= HistoryLimit ==> r == h + [m])
      && (|h| + 1 > HistoryLimit ==> |r| == HistoryLimit && r == [h[0]] + (h + [m])[|h| + 1 - KeptRecent..])
      && (|h| <= HistoryLimit ==> |r| <= HistoryLimit)
      && (|h| > 0 ==> r[0] == h[0])
  {
    var a := h + [m];
    if |a| > HistoryLimit {
      assert a[|a| - 1] == m;
      assert a[0] == h[0];
    } else {
      assert a[|a| - 1] == m;
    }
  }

  /** The history after recording each of `ms` in turn. */
  function RecordAll(h: seq<Message>, ms: seq<Message>): seq<Message>
    decreases |ms|
  {
    if |ms| == 0 then h else RecordAll(Record(h, ms[0]), ms[1..])
  }

  /**
   * The window over a whole conversation `all`: the conversation itself
   * while it is short, otherwise its first message and its last nine.
   */
  function Window(all: seq<Message>): seq<Message>
  {
    if |all| <= HistoryLimit then all else [all[0]] + all[|all| - KeptRecent..]
  }

  /** Recording onto the window of a conversation gives the window of the longer conversation. */
  lemma RecordWindow(all: seq<Message>, m: Message)
    ensures Record(Window(all), m) == Window(all + [m])
  {
    var a := all + [m];
    if |all| > HistoryLimit {
      var w := Window(all);
      assert |w| == HistoryLimit && w[0] == all[0];
      var tail := all[|all| + 1 - KeptRecent..] + [m];
      assert (w + [m])[|w| + 1 - KeptRecent..] == tail by {
        assert w[|w| + 1 - KeptRecent..] == all[|all| + 1 - KeptRecent..];
      }
      assert a[|a| - KeptRecent..] == tail;
      assert a[0] == all[0];
    } else if |all| == HistoryLimit {
      assert Window(all) == all;
    }
  }

  /** Recording a whole sequence onto a window gives the window of the longer conversation. */
  lemma {:induction false} RecordAllWindow(all: seq<Message>, ms: seq<Message>)
    ensures RecordAll(Window(all), ms) == Window(all + ms)
    decreases |ms|
  {
    if |ms| == 0 {
      assert all + ms == all;
    } else {
      var longer := all + [ms[0]];
      calc {
        RecordAll(Window(all), ms);
        RecordAll(Record(Window(all), ms[0]), ms[1..]);
        { RecordWindow(all, ms[0]); }
        RecordAll(Window(longer), ms[1..]);
        { RecordAllWindow(longer, ms[1..]); }
        Window(longer + ms[1..]);
        { assert longer + ms[1..] == all + ms; }
        Window(all + ms);
      }
    }
  }

  /**
   * Starting from an empty history, recording a conversation `ms` keeps
   * exactly its window: all of it while it has at most ten messages, and
   * otherwise ten entries, the first message followed by the last nine.
   */
  lemma HistoryIsWindow(ms: seq<Message>)
    ensures RecordAll([], ms) == Window(ms)
    ensures |ms| > HistoryLimit ==>
              |RecordAll([], ms)| == HistoryLimit && RecordAll([], ms)[0] == ms[0]
  {
    RecordAllWindow([], ms);
    assert [] + ms == ms;
  }

  /** Two messages recorded in a row end the history in that order. */
  lemma RecordTwice(h: seq<Message>, a: Message, b: Message)
    ensures var r := Record(Record(h, a), b);
      |r| >= 2 && r[|r| - 2] == a && r[|r| - 1] == b
  {
    var h1 := Record(h, a);
    var r := Record(h1, b);
    if |h1| + 1 > HistoryLimit {
      assert r[|r| - 2] == (h1 + [b])[|h1| - 1];
    }
  }
}
