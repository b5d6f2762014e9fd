/** The download history: a most-recent-first list of entries, at most fifteen
    long, in which an id appears once. This module holds the pure part: the
    projection of a video record to an entry and the updater that `addToHistory`
    hands to `setHistory`. */
module History {
  import opened JsValues
  import opened Types
  import TikTokApi

  /** How many entries the history keeps, and how many are persisted. */
  const MaxHistory: nat := 15

  /** `s.slice(0, n)`. */
  function Take<T>(s: seq<T>, n: nat): (r: seq<T>)
    ensures |r| == (if |s| <= n then |s| else n)
    ensures r == s[..|r|]
  {
    if |s| <= n then s else s[..n]
  }

  /** The entry recorded for a downloaded video: each text field falls back to
      its default, the cover is copied as it is, and the URL is the one the
      user submitted. `randomId` stands for the random token the source draws
      when the record has no id. */
  function ToHistoryItem(data: VideoData, originalUrl: string, timestamp: int, randomId: string): (item: HistoryItem)
    ensures FallsBackTo(item.id, [data.id], Str(randomId))
    ensures FallsBackTo(item.title, [data.title], Str("TikTok Video"))
    ensures FallsBackTo(item.author, [data.author.uniqueId], Str("tiktok_user"))
    ensures item.url == originalUrl && item.cover == data.cover && item.timestamp == timestamp
  {
    HistoryItem(
      id := Fallback([data.id], Str(randomId)),
      url := originalUrl,
      title := Fallback([data.title], Str("TikTok Video")),
      cover := data.cover,
      timestamp := timestamp,
      author := Fallback([data.author.uniqueId], Str("tiktok_user")))
  }

  /** For a record the normaliser built, the entry copies the id, title and
      author handle unchanged: those are truthy already, so no default and no
      random id is ever used. */
  lemma CanonicalProjection(data: VideoData, originalUrl: string, timestamp: int, randomId: string)
    requires TikTokApi.Canonical(data)
    ensures var item := ToHistoryItem(data, originalUrl, timestamp, randomId);
      item.id == data.id && item.title == data.title && item.author == data.author.uniqueId
  {
    var item := ToHistoryItem(data, originalUrl, timestamp, randomId);
    assert FalsyBefore([data.id], 1) ==> !Truthy(data.id);
    assert FalsyBefore([data.title], 1) ==> !Truthy(data.title);
    assert FalsyBefore([data.author.uniqueId], 1) ==> !Truthy(data.author.uniqueId);
  }

  /** `prev.filter(item => item.id !== id)`. */
  function WithoutId(s: seq<HistoryItem>, id: JsValue): (r: seq<HistoryItem>)
    ensures |r| <= |s|
  {
    if s == [] then []
    else (if StrictEquals(s[0].id, id) then [] else [s[0]]) + WithoutId(s[1..], id)
  }

  /** The filter keeps exactly the entries whose id is not `===` to `id`. */
  lemma {:induction false} WithoutIdMembers(s: seq<HistoryItem>, id: JsValue, x: HistoryItem)
    ensures x in WithoutId(s, id) <==> x in s && !StrictEquals(x.id, id)
  {
    if s != [] {
      WithoutIdMembers(s[1..], id, x);
      assert x in s <==> x == s[0] || x in s[1..];
    }
  }

  /** `r` is `s` with some elements dropped and the rest in their order. */
  ghost predicate IsSubsequence(r: seq<HistoryItem>, s: seq<HistoryItem>)
    decreases |s|
  {
    if r == [] then true
    else if s == [] then false
    else (r[0] == s[0] && IsSubsequence(r[1..], s[1..])) || IsSubsequence(r, s[1..])
  }

  /** Filtering keeps the surviving entries in their order. */
  lemma {:induction false} WithoutIdIsSubsequence(s: seq<HistoryItem>, id: JsValue)
    ensures IsSubsequence(WithoutId(s, id), s)
  {
    if s != [] {
      WithoutIdIsSubsequence(s[1..], id);
      var rest := WithoutId(s[1..], id);
      if StrictEquals(s[0].id, id) {
        assert WithoutId(s, id) == rest;
        if rest != [] {
          assert IsSubsequence(rest, s);
        }
      } else {
        assert WithoutId(s, id) == [s[0]] + rest;
        assert ([s[0]] + rest)[1..] == rest;
      }
    }
  }

  /** Every id occurs at most once (arrays and objects, never `===` to
      anything, trivially so). */
  ghost predicate UniqueIds(s: seq<HistoryItem>) {
    forall i, j :: 0 <= i < j < |s| ==> !StrictEquals(s[i].id, s[j].id)
  }

  ghost predicate HasId(s: seq<HistoryItem>, id: JsValue) {
    exists k :: 0 <= k < |s| && StrictEquals(s[k].id, id)
  }

  lemma {:induction false} WithoutAbsentId(s: seq<HistoryItem>, id: JsValue)
    requires !HasId(s, id)
    ensures WithoutId(s, id) == s
  {
    if s != [] {
      assert forall k :: 0 <= k < |s[1..]| ==> s[1..][k] == s[k + 1];
      assert !StrictEquals(s[0].id, id);
      WithoutAbsentId(s[1..], id);
    }
  }

  /** In a list with unique ids, filtering out an id that occurs removes
      exactly one entry. */
  lemma {:induction false} WithoutPresentId(s: seq<HistoryItem>, id: JsValue)
    requires UniqueIds(s) && HasId(s, id)
    ensures |WithoutId(s, id)| == |s| - 1
  {
    if StrictEquals(s[0].id, id) {
      forall k | 0 <= k < |s[1..]| ensures !StrictEquals(s[1..][k].id, id) {
        assert s[1..][k] == s[k + 1];
        if StrictEquals(s[k + 1].id, id) {
          StrictEqualsSymmetric(s[k + 1].id, id);
          StrictEqualsTransitive(s[0].id, id, s[k + 1].id);
        }
      }
      WithoutAbsentId(s[1..], id);
    } else {
      var k :| 0 <= k < |s| && StrictEquals(s[k].id, id);
      assert HasId(s[1..], id) by { assert s[1..][k - 1] == s[k]; }
      assert UniqueIds(s[1..]) by {
        forall i, j | 0 <= i < j < |s[1..]| ensures !StrictEquals(s[1..][i].id, s[1..][j].id) {
          assert s[1..][i] == s[i + 1] && s[1..][j] == s[j + 1];
        }
      }
      WithoutPresentId(s[1..], id);
    }
  }

  /** The updater `addToHistory` passes to `setHistory`: drop the entries with
      the new entry's id, put the new entry in front, keep the first fifteen. */
  function PushEntry(prev: seq<HistoryItem>, item: HistoryItem): (r: seq<HistoryItem>)
    ensures 1 <= |r| <= MaxHistory && r[0] == item
    ensures r[1..] == Take(WithoutId(prev, item.id), MaxHistory - 1)
    ensures forall k :: 1 <= k < |r| ==> !StrictEquals(r[k].id, item.id) && r[k] in prev
  {
    var r := Take([item] + WithoutId(prev, item.id), MaxHistory);
    assert r[1..] == Take(WithoutId(prev, item.id), MaxHistory - 1);
    forall k | 1 <= k < |r| ensures !StrictEquals(r[k].id, item.id) && r[k] in prev {
      assert r[k] in WithoutId(prev, item.id);
      WithoutIdMembers(prev, item.id, r[k]);
    }
    r
  }

  /** Re-adding an id the history already holds moves that entry to the front
      without growing the list. */
  lemma MoveToFront(prev: seq<HistoryItem>, item: HistoryItem)
    requires UniqueIds(prev) && HasId(prev, item.id) && |prev| <= MaxHistory
    ensures |PushEntry(prev, item)| == |prev|
  {
    WithoutPresentId(prev, item.id);
  }

  /** Adding a new id grows the list by one until it is full. */
  lemma AddNewId(prev: seq<HistoryItem>, item: HistoryItem)
    requires !HasId(prev, item.id)
    ensures PushEntry(prev, item) == Take([item] + prev, MaxHistory)
  {
    WithoutAbsentId(prev, item.id);
  }

  /** The updater keeps ids unique. */
  lemma AddKeepsUniqueIds(prev: seq<HistoryItem>, item: HistoryItem)
    requires UniqueIds(prev)
    ensures UniqueIds(PushEntry(prev, item))
  {
    var r := PushEntry(prev, item);
    var kept := WithoutId(prev, item.id);
    WithoutIdIsSubsequence(prev, item.id);
    SubsequenceKeepsUniqueIds(kept, prev);
    forall i, j | 0 <= i < j < |r| ensures !StrictEquals(r[i].id, r[j].id) {
      if i == 0 {
        StrictEqualsSymmetric(r[j].id, item.id);
      } else {
        assert r[i] == kept[i - 1] && r[j] == kept[j - 1];
      }
    }
  }

  lemma {:induction false} SubsequenceKeepsUniqueIds(r: seq<HistoryItem>, s: seq<HistoryItem>)
    requires IsSubsequence(r, s) && UniqueIds(s)
    ensures UniqueIds(r)
    decreases |s|
  {
    if r != [] {
      assert UniqueIds(s[1..]) by {
        forall i, j | 0 <= i < j < |s[1..]| ensures !StrictEquals(s[1..][i].id, s[1..][j].id) {
          assert s[1..][i] == s[i + 1] && s[1..][j] == s[j + 1];
        }
      }
      if r[0] == s[0] && IsSubsequence(r[1..], s[1..]) {
        SubsequenceKeepsUniqueIds(r[1..], s[1..]);
        forall j | 1 <= j < |r| ensures !StrictEquals(r[0].id, r[j].id) {
          SubsequenceMembers(r[1..], s[1..]);
          assert r[j] == r[1..][j - 1];
          assert r[j] in r[1..];
          var k :| 0 <= k < |s[1..]| && s[1..][k] == r[j];
          assert s[k + 1] == r[j];
        }
        forall i, j | 0 <= i < j < |r| ensures !StrictEquals(r[i].id, r[j].id) {
          if i > 0 {
            assert r[i] == r[1..][i - 1] && r[j] == r[1..][j - 1];
          }
        }
      } else {
        SubsequenceKeepsUniqueIds(r, s[1..]);
      }
    }
  }

  lemma {:induction false} SubsequenceMembers(r: seq<HistoryItem>, s: seq<HistoryItem>)
    requires IsSubsequence(r, s)
    ensures forall x :: x in r ==> x in s
    decreases |s|
  {
    if r != [] {
      if r[0] == s[0] && IsSubsequence(r[1..], s[1..]) {
        SubsequenceMembers(r[1..], s[1..]);
        forall x | x in r ensures x in s {
          if x != r[0] {
            assert x in r[1..];
            assert x in s[1..];
          }
        }
      } else {
        SubsequenceMembers(r, s[1..]);
      }
    }
  }

  function Reverse<T>(s: seq<T>): (r: seq<T>)
    ensures |r| == |s|
  {
    if s == [] then [] else Reverse(s[1..]) + [s[0]]
  }

  /** Adding `items` one after the other, oldest first. */
  function AddAll(prev: seq<HistoryItem>, items: seq<HistoryItem>): seq<HistoryItem>
    decreases |items|
  {
    if items == [] then prev else AddAll(PushEntry(prev, items[0]), items[1..])
  }

  /** Entries whose ids are all new and pairwise distinct pile up most recent
      first, and only the latest fifteen survive: sixteen of them leave
      exactly fifteen. */
  lemma {:induction false} AddDistinct(prev: seq<HistoryItem>, items: seq<HistoryItem>)
    requires UniqueIds(Reverse(items) + prev) && |prev| <= MaxHistory
    ensures AddAll(prev, items) == Take(Reverse(items) + prev, MaxHistory)
    decreases |items|
  {
    if items != [] {
      var x := items[0];
      var rest := items[1..];
      assert items == [x] + rest;
      assert Reverse(items) == Reverse(rest) + [x];
      var whole := Reverse(rest) + [x] + prev;
      assert Reverse(items) + prev == whole;
      // the new id is absent from prev
      assert !HasId(prev, x.id) by {
        if HasId(prev, x.id) {
          var k :| 0 <= k < |prev| && StrictEquals(prev[k].id, x.id);
          var i := |Reverse(rest)|;
          assert whole[i] == x && whole[i + 1 + k] == prev[k];
          StrictEqualsSymmetric(prev[k].id, x.id);
        }
      }
      AddNewId(prev, x);
      var next := Take([x] + prev, MaxHistory);
      assert UniqueIds(Reverse(rest) + ([x] + prev)) by {
        assert Reverse(rest) + ([x] + prev) == whole;
      }
      TakeKeepsUniqueIds(Reverse(rest), [x] + prev);
      AddDistinct(next, rest);
      TakeOfTake(Reverse(rest), [x] + prev);
      assert Reverse(rest) + ([x] + prev) == whole;
    }
  }

  /** Cutting the tail of a list with unique ids keeps them unique. */
  lemma TakeKeepsUniqueIds(a: seq<HistoryItem>, b: seq<HistoryItem>)
    requires UniqueIds(a + b)
    ensures UniqueIds(a + Take(b, MaxHistory))
  {
    var t := a + Take(b, MaxHistory);
    forall i, j | 0 <= i < j < |t| ensures !StrictEquals(t[i].id, t[j].id) {
      assert t[i] == (a + b)[i] && t[j] == (a + b)[j];
    }
  }

  lemma TakeOfTake(a: seq<HistoryItem>, b: seq<HistoryItem>)
    ensures Take(a + Take(b, MaxHistory), MaxHistory) == Take(a + b, MaxHistory)
  {
    var l := Take(a + Take(b, MaxHistory), MaxHistory);
    var r := Take(a + b, MaxHistory);
    assert |l| == |r|;
    forall k | 0 <= k < |l| ensures l[k] == r[k] {
      if k >= |a| {
        assert l[k] == Take(b, MaxHistory)[k - |a|];
      }
    }
  }
}
