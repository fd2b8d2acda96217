/**
The bounded windows with which two channels drop messages they have already seen: an ordered
dict that evicts its oldest key, and a deque of bounded length.
*/
module DuplicateWindow {

  const CAPACITY: nat := 1000

  /** The last `n` elements of `s`. */
  function Suffix<T>(s: seq<T>, n: nat): seq<T> {
    if |s| <= n then s else s[|s| - n..]
  }

  /**
  The specification, over the unbounded history of accepted ids: an id passes unless it is among
  the last CAPACITY accepted ones.
  */
  function Passes(accepted: seq<string>, id: string): bool {
    id !in Suffix(accepted, CAPACITY)
  }

  function Accepted(accepted: seq<string>, id: string): seq<string> {
    if Passes(accepted, id) then accepted + [id] else accepted
  }

  /** The history after a stream of ids, all of them recorded. */
  function History(ids: seq<string>): seq<string> {
    if ids == [] then [] else Accepted(History(ids[..|ids| - 1]), ids[|ids| - 1])
  }

  /** The messages of a channel that records blank ids too: which of them pass. */
  function RecordingVerdicts(ids: seq<string>): (verdicts: seq<bool>)
    ensures |verdicts| == |ids|
  {
    if ids == [] then []
    else
      var before := ids[..|ids| - 1];
      RecordingVerdicts(before) + [Passes(History(before), ids[|ids| - 1])]
  }

  function NonBlank(ids: seq<string>): seq<string> {
    if ids == [] then []
    else NonBlank(ids[..|ids| - 1]) + if ids[|ids| - 1] == "" then [] else [ids[|ids| - 1]]
  }

  /** The messages of a channel that lets blank ids through unrecorded: which of them pass. */
  function SkippingVerdicts(ids: seq<string>): (verdicts: seq<bool>)
    ensures |verdicts| == |ids|
  {
    if ids == [] then []
    else
      var before := ids[..|ids| - 1];
      var id := ids[|ids| - 1];
      SkippingVerdicts(before) + [id == "" || Passes(History(NonBlank(before)), id)]
  }

  /** `_processed_message_ids`, an OrderedDict used as a set in insertion order. */
  class OrderedWindow {
    var keys: seq<string>
    ghost var history: seq<string>

    ghost predicate Valid()
      reads this
    {
      keys == Suffix(history, CAPACITY)
    }

    constructor ()
      ensures Valid() && history == []
    {
      keys := [];
      history := [];
    }

    /** The filter of `_handle_bridge_message`: does the message go on? */
    method Handle(id: string) returns (passes: bool)
      requires Valid()
      modifies this
      ensures Valid()
      ensures passes <==> id == "" || Passes(old(history), id)
      ensures history == if id == "" then old(history) else Accepted(old(history), id)
    {
      if id != "" {
        if id in keys {
          return false;
        }
        keys := keys + [id];
        history := history + [id];
        while |keys| > CAPACITY
          invariant history == old(history) + [id]
          invariant |keys| >= CAPACITY || keys == Suffix(history, CAPACITY)
          invariant |keys| <= |history| && keys == history[|history| - |keys|..]
        {
          keys := keys[1..];
        }
      }
      return true;
    }
  }

  /** `_processed_ids`, a deque with `maxlen`. */
  class DequeWindow {
    var items: seq<string>
    ghost var history: seq<string>

    ghost predicate Valid()
      reads this
    {
      items == Suffix(history, CAPACITY)
    }

    constructor ()
      ensures Valid() && history == []
    {
      items := [];
      history := [];
    }

    /** The filter of `_on_message`: does the message go on? */
    method OnMessage(id: string) returns (passes: bool)
      requires Valid()
      modifies this
      ensures Valid()
      ensures passes <==> Passes(old(history), id)
      ensures history == Accepted(old(history), id)
    {
      if id in items {
        return false;
      }
      history := history + [id];
      items := items + [id];
      if |items| > CAPACITY {
        items := items[1..];
      }
      return true;
    }
  }

  // --- what the specification means ---

  /** No id occurs twice at positions at most CAPACITY apart. */
  predicate FarApart(accepted: seq<string>) {
    forall i, j | 0 <= i < j < |accepted| && j - i <= CAPACITY :: accepted[i] != accepted[j]
  }

  lemma {:induction false} HistoryIsFarApart(ids: seq<string>)
    ensures FarApart(History(ids))
  {
    if ids != [] {
      var before := History(ids[..|ids| - 1]);
      var id := ids[|ids| - 1];
      HistoryIsFarApart(ids[..|ids| - 1]);
      if Passes(before, id) {
        forall i | 0 <= i < |before| && |before| - i <= CAPACITY ensures before[i] != id {
          assert before[i] in Suffix(before, CAPACITY) by {
            var k := if |before| <= CAPACITY then i else i - (|before| - CAPACITY);
            assert Suffix(before, CAPACITY)[k] == before[i];
          }
        }
      }
    }
  }

  /**
  Two acceptances of one id have at least CAPACITY others between them, and the CAPACITY ids
  accepted right after the first differ from it and from one another.
  */
  lemma RepeatsAreFarApart(ids: seq<string>, i: nat, j: nat)
    requires i < j < |History(ids)| && History(ids)[i] == History(ids)[j]
    ensures j - i - 1 >= CAPACITY
    ensures forall k, l | i <= k < l <= i + CAPACITY :: History(ids)[k] != History(ids)[l]
  {
    HistoryIsFarApart(ids);
  }

  // --- the two windows beside each other ---

  lemma {:induction false} NonBlankMembers(ids: seq<string>)
    ensures forall id :: id in NonBlank(ids) <==> id in ids && id != ""
  {
    if ids != [] {
      NonBlankMembers(ids[..|ids| - 1]);
      assert ids == ids[..|ids| - 1] + [ids[|ids| - 1]];
    }
  }

  lemma {:induction false} NonBlankOfNonBlank(ids: seq<string>)
    requires "" !in ids
    ensures NonBlank(ids) == ids
  {
    if ids != [] {
      NonBlankOfNonBlank(ids[..|ids| - 1]);
    }
  }

  lemma {:induction false} NonBlankConcat(a: seq<string>, b: seq<string>)
    ensures NonBlank(a + b) == NonBlank(a) + NonBlank(b)
  {
    if b == [] {
      assert a + b == a;
    } else {
      NonBlankConcat(a, b[..|b| - 1]);
      assert (a + b)[..|a + b| - 1] == a + b[..|b| - 1];
    }
  }

  lemma OneBlank(ids: seq<string>, p: nat)
    requires p < |ids| && ids[p] == "" && "" !in ids[..p] && "" !in ids[p + 1..]
    ensures |NonBlank(ids)| == |ids| - 1
  {
    assert ids == ids[..p] + ([""] + ids[p + 1..]);
    NonBlankConcat(ids[..p], [""] + ids[p + 1..]);
    NonBlankConcat([""], ids[p + 1..]);
    NonBlankOfNonBlank(ids[..p]);
    NonBlankOfNonBlank(ids[p + 1..]);
  }

  /** A window of a history holds at most one blank id, and then the id evicted last is not blank. */
  lemma WindowOfHistory(h: seq<string>, n: nat)
    requires FarApart(h) && n <= CAPACITY && n <= |h| && "" in h[|h| - n..]
    ensures |NonBlank(h[|h| - n..])| == n - 1
    ensures n == CAPACITY < |h| ==> h[|h| - n - 1] != "" && h[|h| - n - 1] !in h[|h| - n..]
  {
    var window := h[|h| - n..];
    var p :| 0 <= p < n && window[p] == "";
    forall k | 0 <= k < n && k != p ensures window[k] != "" {
      assert h[|h| - n + k] == window[k] && h[|h| - n + p] == window[p];
    }
    OneBlank(window, p);
  }

  /** The window of the channel that skips blank ids: it reaches one id further back when the other holds a blank. */
  function Skipped(h: seq<string>): seq<string> {
    var window := Suffix(h, CAPACITY);
    if "" in window && |h| > CAPACITY then [h[|h| - CAPACITY - 1]] + NonBlank(window) else NonBlank(window)
  }

  lemma SuffixOfConcat<T>(a: seq<T>, b: seq<T>, n: nat)
    requires |b| == n || (|b| <= n && a == [])
    ensures Suffix(a + b, n) == b
  {
  }

  lemma NonBlankNext(ids: seq<string>, id: string)
    ensures NonBlank(ids + [id]) == NonBlank(ids) + if id == "" then [] else [id]
  {
    assert (ids + [id])[..|ids|] == ids;
  }

  lemma SkippedOverflow(older: seq<string>, evicted: string, window: seq<string>)
    requires |NonBlank(window)| == CAPACITY - 1 && evicted != ""
    ensures Suffix(NonBlank(older + [evicted] + window), CAPACITY) == [evicted] + NonBlank(window)
  {
    NonBlankConcat(older + [evicted], window);
    NonBlankNext(older, evicted);
    assert NonBlank(older + [evicted] + window) == NonBlank(older) + ([evicted] + NonBlank(window));
    SuffixOfConcat(NonBlank(older), [evicted] + NonBlank(window), CAPACITY);
  }

  lemma SkippedPlain(older: seq<string>, window: seq<string>)
    requires |window| == CAPACITY && "" !in window
    ensures Suffix(NonBlank(older + window), CAPACITY) == NonBlank(window)
  {
    NonBlankConcat(older, window);
    NonBlankOfNonBlank(window);
    SuffixOfConcat(NonBlank(older), window, CAPACITY);
  }

  lemma {:induction false} NonBlankIsShorter(ids: seq<string>)
    ensures |NonBlank(ids)| <= |ids|
  {
    if ids != [] {
      NonBlankIsShorter(ids[..|ids| - 1]);
    }
  }

  lemma SkippedLong(h: seq<string>)
    requires |h| > CAPACITY
    requires var window := h[|h| - CAPACITY..];
      "" in window ==> |NonBlank(window)| == CAPACITY - 1 && h[|h| - CAPACITY - 1] != ""
    ensures Suffix(NonBlank(h), CAPACITY) == Skipped(h)
  {
    var older, evicted, window := h[..|h| - CAPACITY - 1], h[|h| - CAPACITY - 1], h[|h| - CAPACITY..];
    assert h == older + [evicted] + window;
    if "" in window {
      SkippedOverflow(older, evicted, window);
    } else {
      SkippedPlain(older + [evicted], window);
    }
  }

  lemma SkippedWindow(h: seq<string>)
    requires FarApart(h)
    ensures Suffix(NonBlank(h), CAPACITY) == Skipped(h)
  {
    if |h| <= CAPACITY {
      NonBlankIsShorter(h);
    } else {
      if "" in h[|h| - CAPACITY..] { WindowOfHistory(h, CAPACITY); }
      SkippedLong(h);
    }
  }

  /**
  After the history `h`, the two channels treat `id` alike: a blank id when no blank is in the window,
  and any other id unless a window that holds a blank has just evicted it.
  */
  predicate TreatAlike(h: seq<string>, id: string) {
    var window := Suffix(h, CAPACITY);
    if id == "" then "" !in window else !("" in window && |h| > CAPACITY && h[|h| - CAPACITY - 1] == id)
  }

  lemma TreatAlikeIsExact(h: seq<string>, id: string)
    requires FarApart(h)
    ensures TreatAlike(h, id) <==> (Passes(h, id) <==> id == "" || Passes(NonBlank(h), id))
  {
    var window := Suffix(h, CAPACITY);
    SkippedWindow(h);
    NonBlankMembers(window);
    if "" in window && |h| > CAPACITY {
      WindowOfHistory(h, CAPACITY);
    }
  }

  predicate AllAlike(ids: seq<string>) {
    forall k | 0 <= k < |ids| :: TreatAlike(History(ids[..k]), ids[k])
  }

  lemma AllAlikeNext(ids: seq<string>)
    requires ids != []
    ensures var before := ids[..|ids| - 1];
      AllAlike(ids) <==> AllAlike(before) && TreatAlike(History(before), ids[|ids| - 1])
  {
    var before := ids[..|ids| - 1];
    assert forall k | 0 <= k < |before| :: before[..k] == ids[..k];
    if AllAlike(before) && TreatAlike(History(before), ids[|ids| - 1]) {
      forall k | 0 <= k < |ids| ensures TreatAlike(History(ids[..k]), ids[k]) {
        if k < |before| { assert TreatAlike(History(before[..k]), before[k]); }
      }
    }
    if AllAlike(ids) {
      forall k | 0 <= k < |before| ensures TreatAlike(History(before[..k]), before[k]) {
        assert TreatAlike(History(ids[..k]), ids[k]);
      }
    }
  }

  lemma HistoryNext(ids: seq<string>, id: string)
    ensures History(ids + [id]) == Accepted(History(ids), id)
  {
    assert (ids + [id])[..|ids|] == ids;
  }

  lemma AcceptedMatch(h: seq<string>, id: string)
    requires Passes(h, id) <==> id == "" || Passes(NonBlank(h), id)
    ensures NonBlank(Accepted(h, id)) == if id == "" then NonBlank(h) else Accepted(NonBlank(h), id)
  {
    if Passes(h, id) { NonBlankNext(h, id); }
  }

  lemma AlikeInHistory(before: seq<string>, id: string)
    ensures var h := History(before); TreatAlike(h, id) <==> (Passes(h, id) <==> id == "" || Passes(NonBlank(h), id))
  {
    HistoryIsFarApart(before);
    TreatAlikeIsExact(History(before), id);
  }

  lemma HistoriesMatchNext(before: seq<string>, id: string)
    requires History(NonBlank(before)) == NonBlank(History(before)) && TreatAlike(History(before), id)
    ensures History(NonBlank(before + [id])) == NonBlank(History(before + [id]))
  {
    AlikeInHistory(before, id);
    AcceptedMatch(History(before), id);
    HistoryNext(before, id);
    NonBlankNext(before, id);
    if id == "" {
      assert NonBlank(before) + [] == NonBlank(before);
    } else {
      HistoryNext(NonBlank(before), id);
    }
  }

  /** As long as the channels agree, one history is the other without its blank ids. */
  lemma {:induction false} HistoriesMatch(ids: seq<string>)
    requires AllAlike(ids)
    ensures History(NonBlank(ids)) == NonBlank(History(ids))
  {
    if ids != [] {
      var before, id := ids[..|ids| - 1], ids[|ids| - 1];
      assert ids == before + [id];
      AllAlikeNext(ids);
      HistoriesMatch(before);
      HistoriesMatchNext(before, id);
    }
  }

  /** The channels let the same messages of a stream through if and only if they treat each one alike. */
  lemma {:induction false} WindowsAgree(ids: seq<string>)
    ensures RecordingVerdicts(ids) == SkippingVerdicts(ids) <==> AllAlike(ids)
  {
    if ids != [] {
      var before, id := ids[..|ids| - 1], ids[|ids| - 1];
      AllAlikeNext(ids);
      WindowsAgree(before);
      if AllAlike(before) {
        HistoriesMatch(before);
        AlikeInHistory(before, id);
      }
      assert RecordingVerdicts(ids)[..|ids| - 1] == RecordingVerdicts(before);
      assert SkippingVerdicts(ids)[..|ids| - 1] == SkippingVerdicts(before);
    }
  }

  /** Two blank ids are enough to tell them apart: the deque drops the second one. */
  lemma BlankIdsTellThemApart()
    ensures SkippingVerdicts(["", ""]) == [true, true]
    ensures RecordingVerdicts(["", ""]) == [true, false]
  {
    assert ["", ""][..1] == [""] && [""][..0] == [];
    assert History([""]) == [""];
  }

  // --- who passes ---

  /** An id passes if and only if none of the last 1000 accepted ones is the same. */
  lemma PassesExactly(accepted: seq<string>, id: string)
    ensures Passes(accepted, id) <==>
            forall j | 0 <= j < |accepted| && |accepted| - j <= 1000 :: accepted[j] != id
  {
    var window := Suffix(accepted, CAPACITY);
    var start := |accepted| - |window|;
    forall j | 0 <= j < |accepted| && |accepted| - j <= 1000 ensures accepted[j] == window[j - start] {
    }
    if !Passes(accepted, id) {
      var k :| 0 <= k < |window| && window[k] == id;
      assert accepted[start + k] == id;
    }
  }
}
