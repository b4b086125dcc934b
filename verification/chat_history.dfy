/** `FirestoreHandler` (libs/firestore_handler.py): the per-user chat history kept in one
    Firestore collection, at most `max_entries` turns per user. The collection is a
    sequence of records; each call is one sequential step. */
module ChatHistory {
  import opened FirestoreQuery

  /** `self.max_entries`. */
  const MaxEntries: nat := 25

  // ---------------------------------------------------------------------------
  // load_chat_history
  // ---------------------------------------------------------------------------

  /** The turns the query of `load_chat_history` returns: the newest `MaxEntries` records of `u`,
      here put back into ascending order. They are exactly the last ones of `u`'s records
      in timestamp order. */
  function Retained(c: seq<Record>, u: string): (ts: seq<Record>)
    ensures |ts| == Min(MaxEntries, |Where(c, u)|)
    ensures var a := OrderByAsc(Where(c, u)); |a| == |Where(c, u)| && ts == a[|a| - |ts|..]
    ensures Ascending(ts)
    ensures forall x :: x in ts ==> x in c && x.userId == u
  {
    var w := Where(c, u);
    NewestSuffix(w);
    assert forall x :: x in w ==> x in c && x.userId == u;
    Reverse(Limit(OrderByDesc(w), MaxEntries))
  }

  /** The newest `MaxEntries` records, turned round, are the tail of the ascending order. */
  lemma NewestSuffix(w: seq<Record>)
    ensures var a := OrderByAsc(w);
            var ts := Reverse(Limit(OrderByDesc(w), MaxEntries));
            |a| == |w| && |ts| == Min(MaxEntries, |w|) && ts == a[|a| - |ts|..] &&
            Ascending(ts) && forall x :: x in ts ==> x in w
  {
    var a := OrderByAsc(w);
    assert |a| == |multiset(a)| == |w|;
    LimitDesc(w, MaxEntries);
    var ts := Reverse(Limit(OrderByDesc(w), MaxEntries));
    forall x | x in ts ensures x in w {
      assert x in a;
      assert x in multiset(w);
    }
  }

  /** Each turn contributes its user text, then its model text. */
  function FlattenTurns(ds: seq<Record>): (h: seq<string>)
    ensures |h| == 2 * |ds|
    ensures forall i :: 0 <= i < |ds| ==> h[2 * i] == ds[i].user && h[2 * i + 1] == ds[i].model
  {
    if ds == [] then [] else [ds[0].user, ds[0].model] + FlattenTurns(ds[1..])
  }

  /** Turning a flattened list round turns its turns round, and each turn's two texts. */
  lemma ReverseFlatten(ds: seq<Record>)
    ensures var h := Reverse(FlattenTurns(ds));
            forall i :: 0 <= i < |ds| ==>
              h[2 * i] == Reverse(ds)[i].model && h[2 * i + 1] == Reverse(ds)[i].user
  {
    ReversePairs(ds, FlattenTurns(ds), (r: Record) => r.user, (r: Record) => r.model);
  }

  /** A list that holds two parts of each item one after the other, turned round, holds
      the items from the last to the first with each item's two parts swapped. */
  lemma ReversePairs<R, T>(ds: seq<R>, f: seq<T>, first: R -> T, second: R -> T)
    requires |f| == 2 * |ds|
    requires forall k :: 0 <= k < |ds| ==> f[2 * k] == first(ds[k]) && f[2 * k + 1] == second(ds[k])
    ensures forall i :: 0 <= i < |ds| ==>
              Reverse(f)[2 * i] == second(Reverse(ds)[i]) && Reverse(f)[2 * i + 1] == first(Reverse(ds)[i])
  {
    forall i | 0 <= i < |ds|
      ensures Reverse(f)[2 * i] == second(Reverse(ds)[i]) && Reverse(f)[2 * i + 1] == first(Reverse(ds)[i])
    {
      var k := |ds| - 1 - i;
      assert |f| - 1 - 2 * i == 2 * k + 1;
    }
  }

  /** `load_chat_history` as written: the newest turns of `u`, newest first, flattened and
      then reversed as one list. The result is in chronological order of turns, but within
      each turn the model's text comes before the user's. */
  function LoadChatHistory(c: seq<Record>, u: string): (h: seq<string>)
    ensures |h| == 2 * |Retained(c, u)|
    ensures |h| % 2 == 0 && |h| <= 2 * MaxEntries
    ensures forall i :: 0 <= i < |Retained(c, u)| ==>
              h[2 * i] == Retained(c, u)[i].model && h[2 * i + 1] == Retained(c, u)[i].user
  {
    var newest := Limit(OrderByDesc(Where(c, u)), MaxEntries);
    ReverseFlatten(newest);
    var h := Reverse(FlattenTurns(newest));
    EvenLength(h, |newest|);
    h
  }

  lemma EvenLength(h: seq<string>, n: nat)
    requires |h| == 2 * n && n <= MaxEntries
    ensures |h| % 2 == 0 && |h| <= 2 * MaxEntries
  {
  }

  /** `load_chat_history` as its comment intends it: chronological, and each turn in the
      order it happened, the user's message and then the model's answer. */
  function LoadChatHistoryChronological(c: seq<Record>, u: string): (h: seq<string>)
    ensures |h| == 2 * |Retained(c, u)|
    ensures |h| % 2 == 0 && |h| <= 2 * MaxEntries
    ensures forall i :: 0 <= i < |Retained(c, u)| ==>
              h[2 * i] == Retained(c, u)[i].user && h[2 * i + 1] == Retained(c, u)[i].model
  {
    var ts := Retained(c, u);
    var h := FlattenTurns(ts);
    EvenLength(h, |ts|);
    h
  }

  /** The code as written swaps the two texts of every turn against the intended order. */
  lemma LoadSwapsEachTurn(c: seq<Record>, u: string)
    ensures |LoadChatHistory(c, u)| == |LoadChatHistoryChronological(c, u)|
    ensures forall i :: 0 <= i < |LoadChatHistory(c, u)| / 2 ==>
              LoadChatHistory(c, u)[2 * i] == LoadChatHistoryChronological(c, u)[2 * i + 1] &&
              LoadChatHistory(c, u)[2 * i + 1] == LoadChatHistoryChronological(c, u)[2 * i]
  {
  }

  /** With one stored turn, the history as written starts with the model's answer. */
  lemma OneTurnHistory(c: seq<Record>, u: string, t: Record)
    requires Where(c, u) == [t]
    ensures LoadChatHistory(c, u) == [t.model, t.user]
    ensures LoadChatHistoryChronological(c, u) == [t.user, t.model]
  {
    assert OrderByAsc([t]) == [t];
    assert Retained(c, u) == [t];
  }

  // ---------------------------------------------------------------------------
  // enforce_entry_limit
  // ---------------------------------------------------------------------------

  /** The filter "not listed in `doomed`": deleting documents by reference. */
  function NotIn(doomed: seq<Record>): Record -> bool {
    (x: Record) => x !in doomed
  }

  /** The records deleted are records of `u` from the collection. */
  lemma DoomedOwned(c: seq<Record>, u: string, s: seq<Record>)
    requires multiset(s) == multiset(Where(c, u))
    ensures forall y :: y in Offset(s, MaxEntries) ==> y in c && y.userId == u
  {
    LimitOffset(s, MaxEntries);
    forall y | y in Offset(s, MaxEntries) ensures y in c && y.userId == u {
      assert y in s;
      assert y in multiset(Where(c, u));
    }
  }

  /** Deleting records of `u` leaves every other user's records as they were. */
  lemma PruneOthers(c: seq<Record>, u: string, doomed: seq<Record>)
    requires forall y :: y in doomed ==> y.userId == u
    ensures forall v :: v != u ==> Where(Keep(c, NotIn(doomed)), v) == Where(c, v)
  {
    forall v | v != u ensures Where(Keep(c, NotIn(doomed)), v) == Where(c, v) {
      KeepWeakerFirst(c, NotIn(doomed), OwnedBy(v));
    }
  }

  /** After the deletion `u` holds at most `MaxEntries` records, and only ones among the
      first `MaxEntries` of `s`. */
  lemma PruneBound(c: seq<Record>, u: string, s: seq<Record>)
    requires multiset(s) == multiset(Where(c, u))
    ensures var r := Keep(c, NotIn(Offset(s, MaxEntries)));
            |Where(r, u)| <= MaxEntries
  {
    var kept := Limit(s, MaxEntries);
    var doomed := Offset(s, MaxEntries);
    var r := Keep(c, NotIn(doomed));
    LimitOffset(s, MaxEntries);
    KeepCount(r, OwnedBy(u));
    KeepCount(c, NotIn(doomed));
    KeepCount(c, OwnedBy(u));
    assert multiset(s) == multiset(kept) + multiset(doomed);
    forall x ensures multiset(Where(r, u))[x] <= multiset(kept)[x] {
      if x in doomed {
        assert multiset(Where(r, u))[x] == 0;
      }
    }
    MultisetLength(Where(r, u), kept);
  }

  lemma PruneKept(c: seq<Record>, u: string, s: seq<Record>)
    requires multiset(s) == multiset(Where(c, u))
    ensures var r := Keep(c, NotIn(Offset(s, MaxEntries)));
            forall x :: x in r && x.userId == u ==> x in Limit(s, MaxEntries)
  {
    LimitOffset(s, MaxEntries);
    var r := Keep(c, NotIn(Offset(s, MaxEntries)));
    forall x | x in r && x.userId == u ensures x in Limit(s, MaxEntries) {
      assert x in multiset(Where(c, u));
      assert x in s;
    }
  }

  /** Nothing is deleted while `u` holds no more than `MaxEntries` records. */
  lemma PruneNothing(c: seq<Record>, u: string, s: seq<Record>)
    requires multiset(s) == multiset(Where(c, u)) && |Where(c, u)| <= MaxEntries
    ensures Keep(c, NotIn(Offset(s, MaxEntries))) == c
  {
    assert |s| == |multiset(s)| == |Where(c, u)|;
    assert Offset(s, MaxEntries) == [];
    KeepAll(c, NotIn(Offset(s, MaxEntries)));
  }

  /** What deleting the records after the first `MaxEntries` of `s` does, where `s` holds
      the records of `u` in some order. */
  lemma PruneFacts(c: seq<Record>, u: string, s: seq<Record>)
    requires multiset(s) == multiset(Where(c, u))
    ensures var doomed := Offset(s, MaxEntries);
            forall y :: y in doomed ==> y in c && y.userId == u
    ensures var r := Keep(c, NotIn(Offset(s, MaxEntries)));
            forall v :: v != u ==> Where(r, v) == Where(c, v)
    ensures var r := Keep(c, NotIn(Offset(s, MaxEntries)));
            |Where(r, u)| <= MaxEntries
    ensures var r := Keep(c, NotIn(Offset(s, MaxEntries)));
            forall x :: x in r && x.userId == u ==> x in Limit(s, MaxEntries)
    ensures var r := Keep(c, NotIn(Offset(s, MaxEntries)));
            |Where(c, u)| <= MaxEntries ==> r == c
  {
    DoomedOwned(c, u, s);
    PruneOthers(c, u, Offset(s, MaxEntries));
    PruneBound(c, u, s);
    PruneKept(c, u, s);
    if |Where(c, u)| <= MaxEntries {
      PruneNothing(c, u, s);
    }
  }

  /** With unique ids, deleting the records after the first `MaxEntries` of `s` leaves `u`
      exactly those first `MaxEntries`, no more and no fewer. */
  lemma PruneExact(c: seq<Record>, u: string, s: seq<Record>)
    requires multiset(s) == multiset(Where(c, u)) && UniqueIds(c)
    ensures var r := Keep(c, NotIn(Offset(s, MaxEntries)));
            multiset(Where(r, u)) == multiset(Limit(s, MaxEntries)) &&
            |Where(r, u)| == Min(MaxEntries, |Where(c, u)|) && UniqueIds(r)
  {
    var kept := Limit(s, MaxEntries);
    var r := Keep(c, NotIn(Offset(s, MaxEntries)));
    PruneCounts(c, u, s);
    assert |Where(r, u)| == |multiset(kept)| == |kept|;
    assert |s| == |multiset(s)| == |Where(c, u)|;
    KeepUnique(c, NotIn(Offset(s, MaxEntries)));
  }

  lemma PruneCounts(c: seq<Record>, u: string, s: seq<Record>)
    requires multiset(s) == multiset(Where(c, u)) && UniqueIds(c)
    ensures var r := Keep(c, NotIn(Offset(s, MaxEntries)));
            multiset(Where(r, u)) == multiset(Limit(s, MaxEntries))
  {
    var r := Keep(c, NotIn(Offset(s, MaxEntries)));
    forall x ensures multiset(Where(r, u))[x] == multiset(Limit(s, MaxEntries))[x] {
      PruneCountAt(c, u, s, x);
    }
  }

  /** The count of one record after the deletion: the record is counted at most once
      before, and it is gone exactly when it is among the deleted. */
  lemma PruneCountAt(c: seq<Record>, u: string, s: seq<Record>, x: Record)
    requires multiset(s) == multiset(Where(c, u)) && UniqueIds(c)
    ensures var r := Keep(c, NotIn(Offset(s, MaxEntries)));
            multiset(Where(r, u))[x] == multiset(Limit(s, MaxEntries))[x]
  {
    var kept := Limit(s, MaxEntries);
    var doomed := Offset(s, MaxEntries);
    var r := Keep(c, NotIn(doomed));
    LimitOffset(s, MaxEntries);
    assert multiset(s) == multiset(kept) + multiset(doomed);
    KeepCount(r, OwnedBy(u));
    KeepCount(c, NotIn(doomed));
    KeepCount(c, OwnedBy(u));
    UniqueCountedOnce(c);
    if x in doomed {
      assert multiset(s)[x] <= multiset(c)[x] <= 1;
    }
  }

  /** In an ascending sequence, everything before position `n` precedes everything after. */
  lemma AscendingSplit(s: seq<Record>, n: nat)
    requires Ascending(s)
    ensures forall x, y :: x in Limit(s, n) && y in Offset(s, n) ==> KeyLe(x, y)
  {
    LimitOffset(s, n);
    forall x, y | x in Limit(s, n) && y in Offset(s, n) ensures KeyLe(x, y) {
      var i :| 0 <= i < |Limit(s, n)| && Limit(s, n)[i] == x;
      var j :| 0 <= j < |Offset(s, n)| && Offset(s, n)[j] == y;
      assert s[i] == x && s[Min(n, |s|) + j] == y;
    }
  }

  /** In a descending sequence, everything before position `n` follows everything after. */
  lemma DescendingSplit(s: seq<Record>, n: nat)
    requires Descending(s)
    ensures forall x, y :: x in Limit(s, n) && y in Offset(s, n) ==> KeyLe(y, x)
  {
    LimitOffset(s, n);
    forall x, y | x in Limit(s, n) && y in Offset(s, n) ensures KeyLe(y, x) {
      var i :| 0 <= i < |Limit(s, n)| && Limit(s, n)[i] == x;
      var j :| 0 <= j < |Offset(s, n)| && Offset(s, n)[j] == y;
      assert s[i] == x && s[Min(n, |s|) + j] == y;
    }
  }

  /** `enforce_entry_limit` as written: `u`'s records in ascending timestamp order, and
      every one after the first `MaxEntries` deleted. It only ever deletes records of `u`,
      leaves at most `MaxEntries` of them, and every record it keeps is older than every
      record it deletes: it keeps the oldest turns. */
  function EnforceEntryLimit(c: seq<Record>, u: string): (r: seq<Record>)
    ensures forall v :: v != u ==> Where(r, v) == Where(c, v)
    ensures |Where(r, u)| <= MaxEntries
    ensures forall x :: x in r ==> x in c
    ensures forall y :: y in c && y !in r ==> y.userId == u
    ensures forall x, y :: x in r && x.userId == u && y in c && y !in r ==> KeyLe(x, y)
    ensures |Where(c, u)| <= MaxEntries ==> r == c
  {
    var s := OrderByAsc(Where(c, u));
    PruneFacts(c, u, s);
    AscendingSplit(s, MaxEntries);
    Keep(c, NotIn(Offset(s, MaxEntries)))
  }

  /** `enforce_entry_limit` as its comment intends it, deleting the oldest entries: `u`'s
      records newest first, and every one after the first `MaxEntries` deleted. Every
      record it keeps is newer than every record it deletes. */
  function EnforceEntryLimitNewest(c: seq<Record>, u: string): (r: seq<Record>)
    ensures forall v :: v != u ==> Where(r, v) == Where(c, v)
    ensures |Where(r, u)| <= MaxEntries
    ensures forall x :: x in r ==> x in c
    ensures forall y :: y in c && y !in r ==> y.userId == u
    ensures forall x, y :: x in r && x.userId == u && y in c && y !in r ==> KeyLe(y, x)
    ensures |Where(c, u)| <= MaxEntries ==> r == c
  {
    var s := OrderByDesc(Where(c, u));
    PruneFacts(c, u, s);
    DescendingSplit(s, MaxEntries);
    Keep(c, NotIn(Offset(s, MaxEntries)))
  }

  /** With unique document ids, `enforce_entry_limit` as written keeps exactly the oldest
      `MaxEntries` records of `u` (all of them when there are fewer), and ids stay unique. */
  lemma EnforceKeepsOldest(c: seq<Record>, u: string)
    requires UniqueIds(c)
    ensures var r := EnforceEntryLimit(c, u);
            multiset(Where(r, u)) == multiset(Limit(OrderByAsc(Where(c, u)), MaxEntries)) &&
            |Where(r, u)| == Min(MaxEntries, |Where(c, u)|) && UniqueIds(r)
  {
    PruneExact(c, u, OrderByAsc(Where(c, u)));
  }

  /** With unique document ids, the corrected limit keeps exactly the newest `MaxEntries`
      records of `u` (all of them when there are fewer), and ids stay unique. */
  lemma EnforceKeepsNewest(c: seq<Record>, u: string)
    requires UniqueIds(c)
    ensures var r := EnforceEntryLimitNewest(c, u);
            multiset(Where(r, u)) == multiset(Limit(OrderByDesc(Where(c, u)), MaxEntries)) &&
            |Where(r, u)| == Min(MaxEntries, |Where(c, u)|) && UniqueIds(r)
  {
    PruneExact(c, u, OrderByDesc(Where(c, u)));
  }

  // ---------------------------------------------------------------------------
  // save_chat_turn
  // ---------------------------------------------------------------------------

  /** An id no record of the collection has: `add` creates a new document. */
  function NextId(c: seq<Record>): (n: nat)
    ensures forall x :: x in c ==> x.id < n
  {
    if c == [] then 0
    else
      var rest := NextId(c[1..]);
      assert forall x :: x in c ==> x == c[0] || x in c[1..];
      if c[0].id + 1 <= rest then rest else c[0].id + 1
  }

  /** The record `save_chat_turn` adds; `now` is the server timestamp. */
  function NewTurn(c: seq<Record>, u: string, userMessage: string, modelResponse: string, now: int): (t: Record)
    ensures t !in c
    ensures t.userId == u && t.user == userMessage && t.model == modelResponse && t.timestamp == now
  {
    Record(NextId(c), u, userMessage, modelResponse, now)
  }

  /** Adding the new record gives `u` exactly one more record and nobody else any. */
  lemma AddTurn(c: seq<Record>, t: Record)
    ensures Where(c + [t], t.userId) == Where(c, t.userId) + [t]
    ensures forall v :: v != t.userId ==> Where(c + [t], v) == Where(c, v)
  {
    KeepAppend(c, [t], OwnedBy(t.userId));
    forall v | v != t.userId ensures Where(c + [t], v) == Where(c, v) {
      KeepAppend(c, [t], OwnedBy(v));
    }
  }

  /** `save_chat_turn` as written: add the turn, then `enforce_entry_limit`. Other users'
      records are untouched, `u` ends with at most `MaxEntries` records, and the only record
      that can appear is the new one; below the limit it is simply appended. */
  function SaveChatTurn(c: seq<Record>, u: string, userMessage: string, modelResponse: string, now: int): (r: seq<Record>)
    ensures forall v :: v != u ==> Where(r, v) == Where(c, v)
    ensures |Where(r, u)| <= MaxEntries
    ensures forall x :: x in r ==> x in c || x == NewTurn(c, u, userMessage, modelResponse, now)
    ensures |Where(c, u)| < MaxEntries ==> r == c + [NewTurn(c, u, userMessage, modelResponse, now)]
  {
    var t := NewTurn(c, u, userMessage, modelResponse, now);
    AddTurn(c, t);
    EnforceEntryLimit(c + [t], u)
  }

  /** `save_chat_turn` with the corrected limit. */
  function SaveChatTurnNewest(c: seq<Record>, u: string, userMessage: string, modelResponse: string, now: int): (r: seq<Record>)
    ensures forall v :: v != u ==> Where(r, v) == Where(c, v)
    ensures |Where(r, u)| <= MaxEntries
    ensures forall x :: x in r ==> x in c || x == NewTurn(c, u, userMessage, modelResponse, now)
    ensures |Where(c, u)| < MaxEntries ==> r == c + [NewTurn(c, u, userMessage, modelResponse, now)]
  {
    var t := NewTurn(c, u, userMessage, modelResponse, now);
    AddTurn(c, t);
    EnforceEntryLimitNewest(c + [t], u)
  }

  /** The new document's id is fresh, so ids stay unique. */
  lemma NewTurnUnique(c: seq<Record>, t: Record)
    requires UniqueIds(c) && t.id >= NextId(c)
    ensures UniqueIds(c + [t])
  {
    var ct := c + [t];
    forall i, j | 0 <= i < j < |ct| ensures ct[i].id != ct[j].id {
      if j == |c| {
        assert ct[i] in c;
      }
    }
  }

  /** With unique document ids, `save_chat_turn` as written leaves `u` exactly the oldest
      `MaxEntries` of its records and the new turn, one more than before up to the limit. */
  lemma SaveKeepsOldest(c: seq<Record>, u: string, userMessage: string, modelResponse: string, now: int)
    requires UniqueIds(c)
    ensures var t := NewTurn(c, u, userMessage, modelResponse, now);
            var r := SaveChatTurn(c, u, userMessage, modelResponse, now);
            multiset(Where(r, u)) == multiset(Limit(OrderByAsc(Where(c, u) + [t]), MaxEntries)) &&
            |Where(r, u)| == Min(MaxEntries, |Where(c, u)| + 1) && UniqueIds(r)
  {
    var t := NewTurn(c, u, userMessage, modelResponse, now);
    AddTurn(c, t);
    NewTurnUnique(c, t);
    EnforceKeepsOldest(c + [t], u);
  }

  /** With unique document ids, `save_chat_turn` with the corrected limit leaves `u` exactly
      the newest `MaxEntries` of its records and the new turn, one more than before up to
      the limit. */
  lemma SaveKeepsNewest(c: seq<Record>, u: string, userMessage: string, modelResponse: string, now: int)
    requires UniqueIds(c)
    ensures var t := NewTurn(c, u, userMessage, modelResponse, now);
            var r := SaveChatTurnNewest(c, u, userMessage, modelResponse, now);
            multiset(Where(r, u)) == multiset(Limit(OrderByDesc(Where(c, u) + [t]), MaxEntries)) &&
            |Where(r, u)| == Min(MaxEntries, |Where(c, u)| + 1) && UniqueIds(r)
  {
    var t := NewTurn(c, u, userMessage, modelResponse, now);
    AddTurn(c, t);
    NewTurnUnique(c, t);
    EnforceKeepsNewest(c + [t], u);
  }

  /** At the limit, with a turn newer than all of `u`'s, the corrected `save_chat_turn`
      keeps the new turn and `MaxEntries` records in all: exactly one old record goes, and
      it is older than every record kept. */
  lemma SaveDropsOldest(c: seq<Record>, u: string, userMessage: string, modelResponse: string, now: int)
    requires UniqueIds(c) && |Where(c, u)| == MaxEntries
    requires forall x :: x in c && x.userId == u ==> x.timestamp <= now
    ensures var t := NewTurn(c, u, userMessage, modelResponse, now);
            var r := SaveChatTurnNewest(c, u, userMessage, modelResponse, now);
            t in r && |Where(r, u)| == MaxEntries &&
            forall x, y :: x in r && x.userId == u && y in c && y !in r ==> KeyLe(y, x)
  {
    var t := NewTurn(c, u, userMessage, modelResponse, now);
    AddTurn(c, t);
    SaveKeepsNewest(c, u, userMessage, modelResponse, now);
    NewTurnKept(c, u, userMessage, modelResponse, now);
    var r := SaveChatTurnNewest(c, u, userMessage, modelResponse, now);
    assert r == EnforceEntryLimitNewest(c + [t], u);
  }

  /** The new turn comes after every other record of its user in the query order. */
  lemma NewestOfUser(c: seq<Record>, t: Record, x: Record)
    requires t.id >= NextId(c) && (forall y :: y in c && y.userId == t.userId ==> y.timestamp <= t.timestamp)
    requires x in Where(c, t.userId)
    ensures KeyLe(x, t) && !KeyLe(t, x)
  {
  }

  lemma NewestAfterAll(c: seq<Record>, t: Record)
    requires t.id >= NextId(c) && (forall y :: y in c && y.userId == t.userId ==> y.timestamp <= t.timestamp)
    ensures forall x :: x in multiset(Where(c, t.userId) + [t]) && x != t ==> !KeyLe(t, x)
  {
    forall x | x in multiset(Where(c, t.userId) + [t]) && x != t ensures !KeyLe(t, x) {
      assert x in Where(c, t.userId);
      NewestOfUser(c, t, x);
    }
  }

  /** An ascending sequence ends with its strict maximum. */
  lemma StrictMaxLast(s: seq<Record>, t: Record)
    requires Ascending(s) && t in s
    requires forall x :: x in multiset(s) && x != t ==> !KeyLe(t, x)
    ensures s[|s| - 1] == t
  {
    var k :| 0 <= k < |s| && s[k] == t;
    assert s[|s| - 1] in multiset(s);
    assert k == |s| - 1 || KeyLe(s[k], s[|s| - 1]);
  }

  /** A descending sequence starts with its strict maximum. */
  lemma StrictMaxFirst(s: seq<Record>, t: Record)
    requires Descending(s) && t in s
    requires forall x :: x in multiset(s) && x != t ==> !KeyLe(t, x)
    ensures s[0] == t
  {
    var k :| 0 <= k < |s| && s[k] == t;
    assert s[0] in multiset(s);
    assert k == 0 || KeyLe(s[k], s[0]);
  }

  /** A value counted once sits at one position only. */
  lemma CountedOnce(s: seq<Record>, i: nat, j: nat)
    requires i < |s| && j < |s| && multiset(s)[s[i]] == 1
    ensures s[j] == s[i] ==> i == j
  {
    if i < j && s[i] == s[j] {
      TwiceCounted(s, i, j);
      assert false;
    }
    if j < i && s[i] == s[j] {
      TwiceCounted(s, j, i);
      assert false;
    }
  }

  /** As written, once `u` holds `MaxEntries` turns, saving a turn newer than all of them
      changes nothing: the new turn is the one record after the first `MaxEntries` in
      ascending order, so it is the one deleted. The history never moves on. */
  lemma NewTurnDiscarded(c: seq<Record>, u: string, userMessage: string, modelResponse: string, now: int)
    requires |Where(c, u)| == MaxEntries
    requires forall x :: x in c && x.userId == u ==> x.timestamp <= now
    ensures SaveChatTurn(c, u, userMessage, modelResponse, now) == c
  {
    var t := NewTurn(c, u, userMessage, modelResponse, now);
    AddTurn(c, t);
    var w := Where(c + [t], u);
    var s := OrderByAsc(w);
    assert |s| == |multiset(s)| == |w| == MaxEntries + 1;
    assert t in multiset(s);
    NewestAfterAll(c, t);
    StrictMaxLast(s, t);
    assert Offset(s, MaxEntries) == [t];
    KeepAppend(c, [t], NotIn([t]));
    KeepAll(c, NotIn([t]));
  }

  /** With the corrected limit, the turn just saved is always kept. */
  lemma NewTurnKept(c: seq<Record>, u: string, userMessage: string, modelResponse: string, now: int)
    requires forall x :: x in c && x.userId == u ==> x.timestamp <= now
    ensures NewTurn(c, u, userMessage, modelResponse, now) in SaveChatTurnNewest(c, u, userMessage, modelResponse, now)
  {
    var t := NewTurn(c, u, userMessage, modelResponse, now);
    AddTurn(c, t);
    var w := Where(c + [t], u);
    var s := OrderByDesc(w);
    assert t in multiset(s);
    NewestAfterAll(c, t);
    StrictMaxFirst(s, t);
    KeepCount(c + [t], OwnedBy(u));
    assert multiset(c + [t])[t] == multiset(c)[t] + 1 == 1;
    forall j | 0 <= j < |Offset(s, MaxEntries)| ensures Offset(s, MaxEntries)[j] != t {
      CountedOnce(s, 0, Min(MaxEntries, |s|) + j);
    }
  }
}
