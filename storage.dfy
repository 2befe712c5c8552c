/**
 * `MemStorage`: the in-memory snippet table. A JavaScript `Map` iterates in
 * insertion order, so the table is the map from id to record together with
 * the sequence of its keys in the order they were first set.
 */
module Storage {
  import opened Wrappers
  import opened Schema
  import opened Text
  import opened Ordering

  /**
   * An optional query-string parameter as the route hands it over: missing,
   * a string, or a value of another type (the query parser yields arrays and
   * objects for repeated or bracketed keys, and the route casts blindly).
   */
  datatype Param = Absent | Str(value: string) | NonString

  /** `!param`: missing, or the empty string. */
  predicate IsFalsy(p: Param) {
    p.Absent? || p == Str("")
  }

  /** `!param || field === param`: a falsy filter lets everything through. */
  predicate FilterAccepts(p: Param, field: string) {
    IsFalsy(p) || p == Str(field)
  }

  /**
   * The lower-cased query occurs in the lower-cased title, code or one of
   * the tags; a record without tags has no tag to match.
   */
  predicate MatchesQuery(s: Snippet, query: string) {
    var q := Lower(query);
    || Contains(Lower(s.title), q)
    || Contains(Lower(s.code), q)
    || (s.tags.Some? && exists k :: 0 <= k < |s.tags.value| && Contains(Lower(s.tags.value[k]), q))
  }

  /** The condition `searchCodeSnippets` keeps a record under. */
  predicate SearchMatch(s: Snippet, query: string, language: Param, category: Param) {
    MatchesQuery(s, query) && FilterAccepts(language, s.language) && FilterAccepts(category, s.category) && s.isPublic
  }

  /**
   * How a filter argument behaves: missing or empty imposes nothing, a
   * string demands equality, and a non-string value rejects every record.
   */
  lemma FilterAcceptsCases(p: Param, field: string)
    ensures IsFalsy(p) ==> FilterAccepts(p, field)
    ensures p.Str? && p.value != "" ==> (FilterAccepts(p, field) <==> field == p.value)
    ensures p.NonString? ==> !FilterAccepts(p, field)
  {
  }

  /** A private record is never a search result, whatever the query. */
  lemma PrivateNeverMatches(s: Snippet, query: string, language: Param, category: Param)
    requires !s.isPublic
    ensures !SearchMatch(s, query, language, category)
  {
  }

  /**
   * A body that validates without `isPublic` yields a record that no search
   * finds (nor the public list, which keeps only `isPublic` records), while
   * the corrected record with the column default would be public.
   */
  lemma SpreadRecordHidden(body: Json, id: string, now: Timestamp, query: string, language: Param, category: Param)
    requires body.JObject? && "isPublic" !in body.fields
    requires ParseInsert(body).Success?
    ensures !NewSnippetAsWritten(ParseInsert(body).value, id, now).isPublic
    ensures !SearchMatch(NewSnippetAsWritten(ParseInsert(body).value, id, now), query, language, category)
    ensures NewSnippet(ParseInsert(body).value, id, now).isPublic
  {
    var ins := ParseInsert(body).value;
    assert FlagCarried(body, "isPublic", ins.isPublic);
    PrivateNeverMatches(NewSnippetAsWritten(ins, id, now), query, language, category);
  }

  /**
   * A public record whose title, code or some tag contains the query
   * literally is found when no filter is given.
   */
  lemma LiteralOccurrenceMatches(s: Snippet, query: string, language: Param, category: Param)
    requires s.isPublic && IsFalsy(language) && IsFalsy(category)
    requires Contains(s.title, query) || Contains(s.code, query)
      || (s.tags.Some? && exists k :: 0 <= k < |s.tags.value| && Contains(s.tags.value[k], query))
    ensures SearchMatch(s, query, language, category)
  {
    if Contains(s.title, query) {
      ExactImpliesCaseInsensitive(s.title, query);
    } else if Contains(s.code, query) {
      ExactImpliesCaseInsensitive(s.code, query);
    } else {
      var k :| 0 <= k < |s.tags.value| && Contains(s.tags.value[k], query);
      ExactImpliesCaseInsensitive(s.tags.value[k], query);
    }
  }

  /** The table is well formed: the key order lists each key once and each record sits under its own id. */
  ghost predicate WellFormed(m: map<string, Snippet>, keys: seq<string>) {
    && (forall k :: k in m <==> k in keys)
    && (forall i, j :: 0 <= i < j < |keys| ==> keys[i] != keys[j])
    && (forall k :: k in m ==> m[k].id == k)
  }

  /** `Array.from(map.values())`. */
  function ValuesInOrder(m: map<string, Snippet>, keys: seq<string>): (r: seq<Snippet>)
    requires forall k :: k in keys ==> k in m
    ensures |r| == |keys|
  {
    if keys == [] then [] else [m[keys[0]]] + ValuesInOrder(m, keys[1..])
  }

  /** The values list every stored record exactly once and nothing else. */
  lemma {:induction false} ValuesOnce(m: map<string, Snippet>, keys: seq<string>, s: Snippet)
    requires forall k :: k in keys ==> k in m && m[k].id == k
    requires forall i, j :: 0 <= i < j < |keys| ==> keys[i] != keys[j]
    ensures multiset(ValuesInOrder(m, keys))[s] == if s.id in keys && m[s.id] == s then 1 else 0
  {
    if keys != [] {
      var rest := keys[1..];
      assert forall k :: k in rest ==> k in keys;
      forall i, j | 0 <= i < j < |rest| ensures rest[i] != rest[j] {
        assert rest[i] == keys[i + 1] && rest[j] == keys[j + 1];
      }
      ValuesOnce(m, rest, s);
      forall j | 0 <= j < |rest| ensures rest[j] != keys[0] {
        assert rest[j] == keys[j + 1];
      }
      assert ValuesInOrder(m, keys) == [m[keys[0]]] + ValuesInOrder(m, rest);
      assert s.id in keys <==> s.id == keys[0] || s.id in rest by {
        assert keys == [keys[0]] + rest;
      }
    }
  }

  /** A record after one more view at time `now`. */
  function WithView(s: Snippet, now: Timestamp): Snippet {
    s.(views := s.views + 1, updatedAt := now)
  }

  /** A record after one more like at time `now`. */
  function WithLike(s: Snippet, now: Timestamp): Snippet {
    s.(likes := s.likes + 1, updatedAt := now)
  }

  /** The table after `incrementViews(id)`. */
  function ViewedTable(m: map<string, Snippet>, id: string, now: Timestamp): (r: map<string, Snippet>)
    ensures r.Keys == m.Keys
    ensures forall k :: k in m && k != id ==> r[k] == m[k]
    ensures id in m ==> r[id].views == m[id].views + 1 && r[id].updatedAt == now
    ensures id in m ==> r[id].(views := 0, updatedAt := 0) == m[id].(views := 0, updatedAt := 0)
  {
    if id in m then m[id := WithView(m[id], now)] else m
  }

  /** The table after `toggleLike(id)`. */
  function LikedTable(m: map<string, Snippet>, id: string, now: Timestamp): (r: map<string, Snippet>)
    ensures r.Keys == m.Keys
    ensures forall k :: k in m && k != id ==> r[k] == m[k]
    ensures id in m ==> r[id].likes == m[id].likes + 1 && r[id].updatedAt == now
    ensures id in m ==> r[id].(likes := 0, updatedAt := 0) == m[id].(likes := 0, updatedAt := 0)
  {
    if id in m then m[id := WithLike(m[id], now)] else m
  }

  /** The table after one `toggleLike(id)` at each of the times `nows`, in order. */
  function LikedRepeatedly(m: map<string, Snippet>, id: string, nows: seq<Timestamp>): map<string, Snippet>
    decreases |nows|
  {
    if nows == [] then m else LikedRepeatedly(LikedTable(m, id, nows[0]), id, nows[1..])
  }

  /**
   * `toggleLike` is not a toggle: n calls add n likes, and the record keeps
   * the time of the last call; nothing else in the table changes.
   */
  lemma {:induction false} LikesAccumulate(m: map<string, Snippet>, id: string, nows: seq<Timestamp>)
    requires id in m
    ensures LikedRepeatedly(m, id, nows).Keys == m.Keys
    ensures LikedRepeatedly(m, id, nows)[id].likes == m[id].likes + |nows|
    ensures nows != [] ==> LikedRepeatedly(m, id, nows)[id].updatedAt == nows[|nows| - 1]
    ensures forall k :: k in m && k != id ==> LikedRepeatedly(m, id, nows)[k] == m[k]
    decreases |nows|
  {
    if nows != [] {
      LikesAccumulate(LikedTable(m, id, nows[0]), id, nows[1..]);
      if |nows| > 1 {
        assert nows[1..][|nows[1..]| - 1] == nows[|nows| - 1];
      }
    }
  }

  /** The in-memory table of snippets. */
  class MemStorage {
    var codeSnippets: map<string, Snippet>
    /** The keys of `codeSnippets` in insertion order, the `Map`'s iteration order. */
    var order: seq<string>

    ghost predicate Valid()
      reads this
    {
      WellFormed(codeSnippets, order)
    }

    /** The record is the one stored under its id. */
    ghost predicate IsStored(s: Snippet)
      reads this
    {
      s.id in codeSnippets && codeSnippets[s.id] == s
    }

    constructor ()
      ensures Valid()
      ensures codeSnippets == map[] && order == []
    {
      codeSnippets := map[];
      order := [];
    }

    /**
     * `createCodeSnippet`: stores the record the object spread builds under
     * the fresh id and returns it; nothing already stored changes. A flag the
     * form left out stays undefined, which every reader takes as false.
     */
    method CreateCodeSnippet(ins: InsertSnippet, id: string, now: Timestamp) returns (s: Snippet)
      requires Valid()
      requires id !in codeSnippets
      modifies this
      ensures Valid()
      ensures s == NewSnippetAsWritten(ins, id, now)
      ensures ins.isPublic.None? ==> !s.isPublic
      ensures ins.isPublic.Some? ==> s.isPublic == ins.isPublic.value
      ensures s.id == id && s.views == 0 && s.likes == 0 && s.createdAt == now && s.updatedAt == now
      ensures s.title == ins.title && s.code == ins.code && s.language == ins.language
      ensures s.category == ins.category && s.tags == ins.tags
      ensures codeSnippets == old(codeSnippets)[id := s]
      ensures codeSnippets.Keys == old(codeSnippets).Keys + {id}
      ensures order == old(order) + [id]
    {
      s := NewSnippetAsWritten(ins, id, now);
      codeSnippets := codeSnippets[id := s];
      order := order + [id];
    }

    /** `getCodeSnippet`: the record stored under `id`, if any. */
    method GetCodeSnippet(id: string) returns (r: Option<Snippet>)
      requires Valid()
      ensures r.Some? <==> id in codeSnippets
      ensures r.Some? ==> r.value == codeSnippets[id] && r.value.id == id
    {
      if id in codeSnippets {
        r := Some(codeSnippets[id]);
      } else {
        r := None;
      }
    }

    /**
     * `getAllCodeSnippets`: every stored record exactly once, newest first.
     */
    method GetAllCodeSnippets() returns (r: seq<Snippet>)
      requires Valid()
      ensures SortedDesc(r, CreatedAt)
      ensures |r| == |codeSnippets|
      ensures forall s :: multiset(r)[s] == if IsStored(s) then 1 else 0
    {
      var values := ValuesInOrder(codeSnippets, order);
      r := SortDesc(values, CreatedAt);
      forall s ensures multiset(r)[s] == if IsStored(s) then 1 else 0 {
        ValuesOnce(codeSnippets, order, s);
      }
      assert |r| == |order|;
      assert codeSnippets.Keys == set k | k in order;
      DistinctCard(order);
    }

    /**
     * `searchCodeSnippets`: the public records that match the query and the
     * filters, each once, newest first.
     */
    method SearchCodeSnippets(query: string, language: Param, category: Param) returns (r: seq<Snippet>)
      requires Valid()
      ensures SortedDesc(r, CreatedAt)
      ensures forall s :: multiset(r)[s] == if IsStored(s) && SearchMatch(s, query, language, category) then 1 else 0
    {
      var all := GetAllCodeSnippets();
      var keep := s => SearchMatch(s, query, language, category);
      r := Filter(all, keep);
      FilterKeepsSorted(all, keep, CreatedAt);
      forall s ensures multiset(r)[s] == if IsStored(s) && SearchMatch(s, query, language, category) then 1 else 0 {
        FilterCount(all, keep, s);
      }
    }

    /** `incrementViews`: one more view for the record under `id`, if any. */
    method IncrementViews(id: string, now: Timestamp)
      requires Valid()
      modifies this
      ensures Valid()
      ensures codeSnippets == ViewedTable(old(codeSnippets), id, now)
      ensures order == old(order)
    {
      if id in codeSnippets {
        var s := codeSnippets[id];
        codeSnippets := codeSnippets[id := WithView(s, now)];
      }
    }

    /**
     * `toggleLike`: one more like for the record under `id` and the updated
     * record; nothing when there is none.
     */
    method ToggleLike(id: string, now: Timestamp) returns (r: Option<Snippet>)
      requires Valid()
      modifies this
      ensures Valid()
      ensures codeSnippets == LikedTable(old(codeSnippets), id, now)
      ensures order == old(order)
      ensures r.Some? <==> id in old(codeSnippets)
      ensures r.Some? ==> r.value == codeSnippets[id]
    {
      if id in codeSnippets {
        var s := WithLike(codeSnippets[id], now);
        codeSnippets := codeSnippets[id := s];
        r := Some(s);
      } else {
        r := None;
      }
    }
  }

  /** A sequence without repetitions has as many elements as its set. */
  lemma {:induction false} DistinctCard(keys: seq<string>)
    requires forall i, j :: 0 <= i < j < |keys| ==> keys[i] != keys[j]
    ensures |set k | k in keys| == |keys|
  {
    if keys != [] {
      var rest := keys[1..];
      assert forall i, j :: 0 <= i < j < |rest| ==> rest[i] != rest[j] by {
        forall i, j | 0 <= i < j < |rest| ensures rest[i] != rest[j] {
          assert rest[i] == keys[i + 1] && rest[j] == keys[j + 1];
        }
      }
      DistinctCard(rest);
      assert keys[0] !in rest by {
        forall j | 0 <= j < |rest| ensures rest[j] != keys[0] {
          assert rest[j] == keys[j + 1];
        }
      }
      assert (set k | k in keys) == (set k | k in rest) + {keys[0]};
    }
  }
}
