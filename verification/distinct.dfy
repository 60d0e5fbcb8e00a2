/** `DistinctBy(m => m.MovieId)`: the listing with every entry whose identifier was already
    seen dropped, first occurrence kept, order preserved. `DistinctById` is the recursive
    definition; `DistinctByStreaming` is the one-pass algorithm over a hash set of seen keys
    that the runtime library uses, proved to agree with it. */
module Distinct {

  import opened Movies

  /** The identifiers appearing in a listing. */
  function Ids(s: seq<Movie>): set<string> {
    if |s| == 0 then {} else {s[0].movieId} + Ids(s[1..])
  }

  /** No identifier appears twice. */
  predicate IdsDistinct(s: seq<Movie>) {
    forall i, j :: 0 <= i < j < |s| ==> s[i].movieId != s[j].movieId
  }

  /** `s[i]` is the first entry of `s` carrying its identifier. */
  predicate FirstOccurrence(s: seq<Movie>, i: int)
    requires 0 <= i < |s|
  {
    forall j :: 0 <= j < i ==> s[j].movieId != s[i].movieId
  }

  /** `r` is `s` with some entries dropped and the others kept in their order. */
  predicate IsSubsequence(r: seq<Movie>, s: seq<Movie>) {
    if |r| == 0 then true
    else if |s| == 0 then false
    else (r[0] == s[0] && IsSubsequence(r[1..], s[1..])) || IsSubsequence(r, s[1..])
  }

  lemma {:induction false} IdsMembership(s: seq<Movie>)
    ensures forall i :: 0 <= i < |s| ==> s[i].movieId in Ids(s)
    ensures forall id :: id in Ids(s) ==> exists i :: 0 <= i < |s| && s[i].movieId == id
  {
    if |s| > 0 {
      IdsMembership(s[1..]);
      forall i | 0 < i < |s|
        ensures s[i].movieId in Ids(s)
      {
        assert s[i] == s[1..][i - 1];
      }
      forall id | id in Ids(s)
        ensures exists i :: 0 <= i < |s| && s[i].movieId == id
      {
        if id != s[0].movieId {
          var k :| 0 <= k < |s[1..]| && s[1..][k].movieId == id;
          assert s[k + 1].movieId == id;
        }
      }
    }
  }

  lemma {:induction false} IdsAppend(a: seq<Movie>, b: seq<Movie>)
    ensures Ids(a + b) == Ids(a) + Ids(b)
  {
    if |a| > 0 {
      assert (a + b)[1..] == a[1..] + b;
      IdsAppend(a[1..], b);
    } else {
      assert a + b == b;
    }
  }

  /** Walks `s`, keeping an entry exactly when its identifier is not yet in `seen`. */
  function DistinctFrom(s: seq<Movie>, seen: set<string>): (r: seq<Movie>)
    ensures Ids(r) == Ids(s) - seen
    ensures IdsDistinct(r)
    ensures |r| <= |s|
  {
    if |s| == 0 then []
    else if s[0].movieId in seen then DistinctFrom(s[1..], seen)
    else
      var rest := DistinctFrom(s[1..], seen + {s[0].movieId});
      IdsMembership(rest);
      assert ([s[0]] + rest)[1..] == rest;
      [s[0]] + rest
  }

  /** `DistinctBy(m => m.MovieId)` over a whole listing. */
  function DistinctById(s: seq<Movie>): (r: seq<Movie>)
    ensures Ids(r) == Ids(s)
    ensures IdsDistinct(r)
  {
    DistinctFrom(s, {})
  }

  /** Deduplicating a concatenation is deduplicating the front, then the back against
      everything the front contained. */
  lemma {:induction false} DistinctFromAppend(a: seq<Movie>, b: seq<Movie>, seen: set<string>)
    ensures DistinctFrom(a + b, seen) == DistinctFrom(a, seen) + DistinctFrom(b, seen + Ids(a))
  {
    if |a| == 0 {
      assert a + b == b;
      assert seen + Ids(a) == seen;
      assert DistinctFrom(a, seen) + DistinctFrom(b, seen) == DistinctFrom(b, seen);
    } else {
      assert (a + b)[0] == a[0];
      assert (a + b)[1..] == a[1..] + b;
      if a[0].movieId in seen {
        DistinctFromAppend(a[1..], b, seen);
        assert seen + Ids(a) == seen + Ids(a[1..]);
      } else {
        var seen' := seen + {a[0].movieId};
        DistinctFromAppend(a[1..], b, seen');
        assert seen' + Ids(a[1..]) == seen + Ids(a);
      }
    }
  }

  /** One more entry is kept exactly when its identifier is new. */
  lemma DistinctByIdSnoc(s: seq<Movie>, m: Movie)
    ensures DistinctById(s + [m]) == DistinctById(s) + (if m.movieId in Ids(s) then [] else [m])
  {
    DistinctFromAppend(s, [m], {});
    assert DistinctFrom([m], Ids(s)) == (if m.movieId in Ids(s) then [] else [m]);
  }

  /** The one-pass algorithm: a set of the keys seen so far, an entry emitted when its key
      is added to the set for the first time. */
  method DistinctByStreaming(s: seq<Movie>) returns (r: seq<Movie>)
    ensures r == DistinctById(s)
  {
    var seen: set<string> := {};
    r := [];
    for i := 0 to |s|
      invariant seen == Ids(s[..i])
      invariant r == DistinctById(s[..i])
    {
      assert s[..i + 1] == s[..i] + [s[i]];
      DistinctByIdSnoc(s[..i], s[i]);
      IdsAppend(s[..i], [s[i]]);
      if s[i].movieId !in seen {
        seen := seen + {s[i].movieId};
        r := r + [s[i]];
      }
    }
    assert s[..|s|] == s;
  }

  /** The kept entries appear in `s` in the same relative order. */
  lemma {:induction false} DistinctFromIsSubsequence(s: seq<Movie>, seen: set<string>)
    ensures IsSubsequence(DistinctFrom(s, seen), s)
  {
    if |s| > 0 {
      if s[0].movieId in seen {
        DistinctFromIsSubsequence(s[1..], seen);
      } else {
        var rest := DistinctFrom(s[1..], seen + {s[0].movieId});
        DistinctFromIsSubsequence(s[1..], seen + {s[0].movieId});
        assert ([s[0]] + rest)[1..] == rest;
      }
    }
  }

  /** An entry is kept exactly when it is the first occurrence of an identifier not
      already seen. */
  lemma {:induction false} DistinctFromKeepsFirstOccurrences(s: seq<Movie>, seen: set<string>, m: Movie)
    ensures m in DistinctFrom(s, seen)
            <==> exists i :: 0 <= i < |s| && s[i] == m && m.movieId !in seen && FirstOccurrence(s, i)
  {
    if |s| > 0 {
      var seen' := if s[0].movieId in seen then seen else seen + {s[0].movieId};
      DistinctFromKeepsFirstOccurrences(s[1..], seen', m);
      var r := DistinctFrom(s, seen);
      var t := DistinctFrom(s[1..], seen');
      assert r == (if s[0].movieId in seen then t else [s[0]] + t);
      if m in r {
        if s[0].movieId !in seen && m == s[0] {
          assert FirstOccurrence(s, 0);
        } else {
          assert m in t;
          var k :| 0 <= k < |s[1..]| && s[1..][k] == m && m.movieId !in seen' && FirstOccurrence(s[1..], k);
          assert s[k + 1] == m;
          assert FirstOccurrence(s, k + 1) by {
            forall j | 0 <= j < k + 1
              ensures s[j].movieId != s[k + 1].movieId
            {
              if j > 0 {
                assert s[j] == s[1..][j - 1];
              }
            }
          }
        }
      }
      if exists i :: 0 <= i < |s| && s[i] == m && m.movieId !in seen && FirstOccurrence(s, i) {
        var i :| 0 <= i < |s| && s[i] == m && m.movieId !in seen && FirstOccurrence(s, i);
        if i > 0 {
          assert s[1..][i - 1] == m;
          assert FirstOccurrence(s[1..], i - 1) by {
            forall j | 0 <= j < i - 1
              ensures s[1..][j].movieId != s[1..][i - 1].movieId
            {
              assert s[1..][j] == s[j + 1];
            }
          }
          assert m.movieId != s[0].movieId;
          assert m in t;
        }
      }
    }
  }

  /** An identifier no entry carries is not among the identifiers. */
  lemma {:induction false} AbsentId(s: seq<Movie>, id: string)
    requires forall i :: 0 <= i < |s| ==> s[i].movieId != id
    ensures id !in Ids(s)
  {
    if |s| > 0 {
      assert forall i :: 0 <= i < |s[1..]| ==> s[1..][i] == s[i + 1];
      AbsentId(s[1..], id);
    }
  }

  /** In a listing with distinct identifiers the head's identifier is not in the tail. */
  lemma HeadIdNotInTail(s: seq<Movie>)
    requires |s| > 0
    requires IdsDistinct(s)
    ensures s[0].movieId !in Ids(s[1..])
    ensures IdsDistinct(s[1..])
  {
    assert forall i :: 0 <= i < |s[1..]| ==> s[1..][i] == s[i + 1];
    AbsentId(s[1..], s[0].movieId);
  }

  /** A listing whose identifiers are already distinct, none of them seen, is unchanged. */
  lemma {:induction false} DistinctFromOfDistinct(s: seq<Movie>, seen: set<string>)
    requires IdsDistinct(s)
    requires Ids(s) !! seen
    ensures DistinctFrom(s, seen) == s
  {
    if |s| > 0 {
      HeadIdNotInTail(s);
      assert s[0].movieId !in seen;
      DistinctFromOfDistinct(s[1..], seen + {s[0].movieId});
      assert [s[0]] + s[1..] == s;
    }
  }

  /** A listing with distinct identifiers has exactly one entry per identifier. */
  lemma {:induction false} DistinctCount(s: seq<Movie>)
    requires IdsDistinct(s)
    ensures |s| == |Ids(s)|
  {
    if |s| > 0 {
      HeadIdNotInTail(s);
      DistinctCount(s[1..]);
    }
  }
}
