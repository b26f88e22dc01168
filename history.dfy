/**
 * The per-user conversation history (`messages_list`, `append_history`,
 * `clear_history`). Each user's history is a list of turns whose total
 * content length is kept within a budget by dropping the oldest turns.
 */
module History {
  import opened Telegram

  /** The longest total content length a history may hold, in characters. */
  const Budget: nat := 4096

  datatype Role = User | Assistant

  /** One `{"role": ..., "content": ...}` entry. */
  datatype Turn = Turn(role: Role, content: string)

  /** `sum(len(msg["content"]) for msg in turns)`. */
  function TotalLength(turns: seq<Turn>): (r: nat)
    ensures forall i :: 0 <= i < |turns| ==> |turns[i].content| <= r
  {
    if turns == [] then 0 else |turns[0].content| + TotalLength(turns[1..])
  }

  /** The total length of two histories put together is the sum of their totals. */
  lemma {:induction false} TotalLengthConcat(a: seq<Turn>, b: seq<Turn>)
    ensures TotalLength(a + b) == TotalLength(a) + TotalLength(b)
  {
    if a != [] {
      assert (a + b)[1..] == a[1..] + b;
      TotalLengthConcat(a[1..], b);
    } else {
      assert a + b == b;
    }
  }

  predicate Fits(turns: seq<Turn>)
  {
    TotalLength(turns) <= Budget
  }

  /**
   * The history that front-only eviction leaves: drop the oldest turn, whatever
   * its role, until the rest fits the budget. The result is a suffix of the
   * input that fits.
   */
  function Evict(turns: seq<Turn>): (r: seq<Turn>)
    ensures Fits(r)
    ensures |r| <= |turns| && r == turns[|turns| - |r|..]
    decreases |turns|
  {
    if Fits(turns) then turns else Evict(turns[1..])
  }

  /**
   * Eviction is minimal: every longer suffix of the input is over the budget,
   * so `Evict` keeps the longest suffix that fits.
   */
  lemma {:induction false} EvictKeepsLongestFit(turns: seq<Turn>, k: nat)
    requires k < |turns| - |Evict(turns)|
    ensures !Fits(turns[k..])
    decreases |turns|
  {
    if k > 0 {
      assert turns[1..][k - 1..] == turns[k..];
      EvictKeepsLongestFit(turns[1..], k - 1);
    }
  }

  /** The longest suffix that fits is unique, so it is what `Evict` returns. */
  lemma {:induction false} EvictIsLongestFit(turns: seq<Turn>, k: nat)
    requires k <= |turns| && Fits(turns[k..])
    requires forall j :: 0 <= j < k ==> !Fits(turns[j..])
    ensures Evict(turns) == turns[k..]
    decreases k
  {
    if k > 0 {
      assert turns[0..] == turns;
      assert Evict(turns) == Evict(turns[1..]);
      forall j | 0 <= j < k - 1 ensures !Fits(turns[1..][j..]) {
        assert turns[1..][j..] == turns[j + 1..];
      }
      assert turns[1..][k - 1..] == turns[k..];
      EvictIsLongestFit(turns[1..], k - 1);
    }
  }

  /** A history that already fits loses nothing. */
  lemma EvictKeepsFitting(turns: seq<Turn>)
    requires Fits(turns)
    ensures Evict(turns) == turns
  {
  }

  /** Appending a turn adds its length to the total. */
  lemma TotalLengthAppend(previous: seq<Turn>, turn: Turn)
    ensures TotalLength(previous + [turn]) == TotalLength(previous) + |turn.content|
  {
    TotalLengthConcat(previous, [turn]);
  }

  /**
   * A single new turn longer than the budget evicts everything, itself
   * included.
   */
  lemma {:induction false} OversizedTurnEmptiesHistory(previous: seq<Turn>, turn: Turn)
    requires |turn.content| > Budget
    ensures Evict(previous + [turn]) == []
    decreases |previous|
  {
    TotalLengthAppend(previous, turn);
    if previous == [] {
      assert ([] + [turn])[1..] == [];
    } else {
      assert (previous + [turn])[1..] == previous[1..] + [turn];
      OversizedTurnEmptiesHistory(previous[1..], turn);
    }
  }

  /** A new turn that fits the budget on its own is kept, as the last turn. */
  lemma {:induction false} FittingTurnIsKept(previous: seq<Turn>, turn: Turn)
    requires |turn.content| <= Budget
    ensures var r := Evict(previous + [turn]); r != [] && r[|r| - 1] == turn
    decreases |previous|
  {
    var all := previous + [turn];
    if !Fits(all) {
      if previous == [] {
        TotalLengthAppend([], turn);
      } else {
        assert all[1..] == previous[1..] + [turn];
        FittingTurnIsKept(previous[1..], turn);
      }
    }
  }

  /** `sum(len(msg["content"]) for msg in turns)`, computed front to back. */
  method SumContentLengths(turns: seq<Turn>) returns (total: nat)
    ensures total == TotalLength(turns)
  {
    total := 0;
    for i := 0 to |turns|
      invariant total == TotalLength(turns[..i])
    {
      assert turns[..i + 1] == turns[..i] + [turns[i]];
      TotalLengthAppend(turns[..i], turns[i]);
      total := total + |turns[i].content|;
    }
    assert turns[..|turns|] == turns;
  }

  /**
   * The eviction loop of `append_history`: while the running total is over the
   * budget, pop the oldest turn and subtract its length. What is left is
   * exactly what `Evict` keeps.
   */
  method PopOldestWhileOver(turns: seq<Turn>, totalLength: nat) returns (kept: seq<Turn>)
    requires totalLength == TotalLength(turns)
    ensures kept == Evict(turns)
  {
    kept := turns;
    var total := totalLength;
    ghost var popped := 0;
    while total > Budget
      invariant popped <= |turns| && kept == turns[popped..]
      invariant total == TotalLength(kept)
      invariant forall j :: 0 <= j < popped ==> !Fits(turns[j..])
      decreases |kept|
    {
      var msg := kept[0];
      kept := kept[1..];
      total := total - |msg.content|;
      assert turns[popped..][1..] == turns[popped + 1..];
      popped := popped + 1;
    }
    EvictIsLongestFit(turns, popped);
  }

  /** A second update of the same user replaces the first. */
  lemma UpdateOverwrites(table: map<Username, seq<Turn>>, username: Username, first: seq<Turn>, second: seq<Turn>)
    ensures table[username := first][username := second] == table[username := second]
  {
  }

  /** Every history in the table fits the budget. */
  ghost predicate AllFit(table: map<Username, seq<Turn>>)
  {
    forall u :: u in table ==> Fits(table[u])
  }

  /** Replacing one user's history by one that fits keeps every history fitting. */
  lemma UpdateKeepsAllFit(table: map<Username, seq<Turn>>, username: Username, turns: seq<Turn>)
    requires AllFit(table) && Fits(turns)
    ensures AllFit(table[username := turns])
  {
  }

  /**
   * The process-wide table `messages_list`, from user to that user's history.
   * Its invariant: every history fits the budget.
   */
  class HistoryStore {
    var messagesList: map<Username, seq<Turn>>

    ghost predicate Valid()
      reads this
    {
      AllFit(messagesList)
    }

    /** `messages_list.get(username, [])`. */
    function Get(username: Username): (r: seq<Turn>)
      reads this
      ensures username !in messagesList ==> r == []
      ensures username in messagesList ==> r == messagesList[username]
      ensures Valid() ==> Fits(r)
    {
      if username in messagesList then messagesList[username] else []
    }

    constructor ()
      ensures messagesList == map[]
      ensures Valid()
    {
      messagesList := map[];
    }

    /**
     * `append_history`: create the user's entry if absent, append the turn,
     * sum the content lengths, then pop the oldest turns while the total is
     * over the budget. Returns the user's history, which is what `Evict`
     * leaves of the old history plus the new turn; nobody else's history
     * changes, and every history still fits.
     */
    method AppendHistory(username: Username, content: string, role: Role) returns (msgList: seq<Turn>)
      modifies this
      ensures msgList == Evict(old(Get(username)) + [Turn(role, content)])
      ensures messagesList == old(messagesList)[username := msgList]
      ensures old(Valid()) ==> Valid()
    {
      if username !in messagesList {
        messagesList := messagesList[username := []];
      }
      msgList := messagesList[username];
      assert msgList == old(Get(username));
      msgList := msgList + [Turn(role, content)];
      var totalLength := SumContentLengths(msgList);
      msgList := PopOldestWhileOver(msgList, totalLength);
      messagesList := messagesList[username := msgList];
      if username !in old(messagesList) {
        UpdateOverwrites(old(messagesList), username, [], msgList);
      }
      if old(Valid()) {
        UpdateKeepsAllFit(old(messagesList), username, msgList);
      }
    }

    /**
     * `clear_history`: empty the user's history if the user has one; a user
     * without an entry gets none.
     */
    method ClearHistory(username: Username)
      modifies this
      ensures messagesList == if username in old(messagesList) then old(messagesList)[username := []] else old(messagesList)
      ensures old(Valid()) ==> Valid()
    {
      if username in messagesList {
        messagesList := messagesList[username := []];
      }
    }
  }
}
