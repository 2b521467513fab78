/**
 * The per-user conversation history of the client's chat bots. Each user
 * key owns an append-only list of contents; a completion request sends the
 * most recent part of that list followed by the new input. The language
 * model call itself is not part of this model: `Complete` returns the
 * contents it would send.
 */
module ChatHistory {
  import opened Wrappers

  /** `takeLast(n)`: the last `n` elements, or all of them when there are fewer; a negative `n` is an error. */
  function TakeLast<C>(history: seq<C>, n: int): (r: Result<seq<C>, string>)
    ensures r.Err? <==> n < 0
    ensures r.Ok? ==> |r.value| == (if n < |history| then n else |history|)
    ensures r.Ok? ==> history == history[..|history| - |r.value|] + r.value
  {
    if n < 0 then Err("Requested element count is less than zero")
    else if n < |history| then Ok(history[|history| - n..])
    else Ok(history)
  }

  /** The window slides: after one more entry, the last `n` entries are the last `n - 1` before it plus the new one. */
  lemma WindowSlides<C>(history: seq<C>, c: C, n: int)
    requires n >= 1
    ensures TakeLast(history + [c], n) == Ok(TakeLast(history, n - 1).value + [c])
  {
    var h := history + [c];
    if n < |h| {
      assert h[|h| - n..] == history[|history| - (n - 1)..] + [c];
    } else {
      assert TakeLast(history, n - 1) == Ok(history);
    }
  }

  /**
   * The new entries a response's automatic-function-call history adds: that
   * history repeats the whole stored conversation first, so only what comes
   * after it is new. An absent or empty afc history adds nothing; one
   * shorter than the stored conversation is a sublist index error.
   */
  function AfcTail<C>(history: seq<C>, afc: Option<seq<C>>): (r: Result<seq<C>, string>)
    ensures afc.None? || afc.value == [] ==> r == Ok([])
    ensures afc.Some? && afc.value != [] ==> (r.Err? <==> |afc.value| < |history|)
    ensures afc.Some? && afc.value != [] && r.Ok? ==> |history| + |r.value| == |afc.value|
  {
    if afc.None? || afc.value == [] then Ok([])
    else if |afc.value| < |history| then Err("fromIndex > toIndex")
    else Ok(afc.value[|history|..])
  }

  /**
   * When the afc history does extend the stored conversation, appending its
   * tail makes the stored conversation equal to the afc history.
   */
  lemma AfcTailCatchesUp<C>(history: seq<C>, added: seq<C>)
    requires added != [] || history != []
    ensures AfcTail(history, Some(history + added)) == Ok(added)
    ensures history + AfcTail(history, Some(history + added)).value == history + added
  {
    assert (history + added)[|history|..] == added;
  }

  class MultiuserChat<K(==), C> {
    /** `historyMap`: user key to that user's conversation. */
    var histories: map<K, seq<C>>

    constructor()
      ensures histories == map[]
    {
      histories := map[];
    }

    /** `getHistory`: the user's conversation, empty for a user never seen. */
    function GetHistory(key: K): (h: seq<C>)
      reads this
      ensures key !in histories ==> h == []
      ensures key in histories ==> h == histories[key]
    {
      if key in histories then histories[key] else []
    }

    /** `addHistory(key, content)`: one entry appended to this user's conversation, every other user's kept. */
    method AddHistory(key: K, content: C)
      modifies this
      ensures histories == old(histories)[key := old(GetHistory(key)) + [content]]
      ensures GetHistory(key) == old(GetHistory(key)) + [content]
    {
      histories := histories[key := GetHistory(key) + [content]];
    }

    /**
     * `complete`: the contents sent to the model are the user's last
     * `maxHistory` entries and then the input; the history is not changed.
     */
    method Complete(key: K, userInput: C, maxHistory: int) returns (contents: Result<seq<C>, string>)
      ensures maxHistory < 0 <==> contents.Err?
      ensures contents.Ok? ==> contents.value == TakeLast(GetHistory(key), maxHistory).value + [userInput]
    {
      var window := TakeLast(GetHistory(key), maxHistory);
      if window.Err? {
        return Err(window.error);
      }
      contents := Ok(window.value + [userInput]);
    }

    /**
     * `addHistory(key, response)`: the afc history's new tail is appended to
     * the user's conversation (creating an empty entry when there is none).
     * When the afc history is shorter than the conversation the call fails
     * and nothing changes.
     */
    method AddResponseHistory(key: K, afc: Option<seq<C>>) returns (failed: bool)
      modifies this
      ensures var tail := AfcTail(old(GetHistory(key)), afc);
        failed == tail.Err? &&
        (tail.Err? ==> histories == old(histories)) &&
        (tail.Ok? ==> histories == old(histories)[key := old(GetHistory(key)) + tail.value])
    {
      var newHistory: seq<C> := [];
      if afc.Some? && afc.value != [] {
        var current := GetHistory(key);
        if |afc.value| < |current| {
          return true;
        }
        newHistory := afc.value[|current|..];
      }
      histories := histories[key := GetHistory(key) + newHistory];
      failed := false;
    }

    /** `removeHistory`: this user's conversation is forgotten, every other user's kept. */
    method RemoveHistory(key: K)
      modifies this
      ensures histories == old(histories) - {key}
      ensures GetHistory(key) == []
    {
      histories := histories - {key};
    }

    /** `removeAll`: every conversation is forgotten. */
    method RemoveAll()
      modifies this
      ensures histories == map[]
    {
      histories := map[];
    }
  }
}
