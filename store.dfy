/** A Mongo collection seen as the sequence of its documents in natural
    order: `findOne` is the first match, `find` keeps the matches in order,
    `skip`/`limit` cut a window out of them. */
module Store {
  import opened Common

  /** `findOne(filter)`: the index of the first document that matches. */
  function FindFirst<T>(s: seq<T>, p: T -> bool): (r: Option<nat>)
    ensures r.Some? ==> r.value < |s| && p(s[r.value])
    ensures r.Some? ==> forall j :: 0 <= j < r.value ==> !p(s[j])
    ensures r.None? <==> forall j :: 0 <= j < |s| ==> !p(s[j])
  {
    if |s| == 0 then None
    else if p(s[0]) then Some(0)
    else
      match FindFirst(s[1..], p)
      case None => None
      case Some(i) => Some(i + 1)
  }

  /** An index that matches, with no match before it, is the first match. */
  lemma FindFirstIs<T>(s: seq<T>, p: T -> bool, i: nat)
    requires i < |s| && p(s[i])
    requires forall j :: 0 <= j < i ==> !p(s[j])
    ensures FindFirst(s, p) == Some(i)
  {
    assert FindFirst(s, p).Some?;
  }

  /** Appending documents does not move the first match of a filter that
      already matches. */
  lemma {:induction false} FindFirstAppend<T>(s: seq<T>, t: seq<T>, p: T -> bool)
    requires FindFirst(s, p).Some?
    ensures FindFirst(s + t, p) == FindFirst(s, p)
  {
    if p(s[0]) {
      assert (s + t)[0] == s[0];
    } else {
      assert (s + t)[1..] == s[1..] + t;
      FindFirstAppend(s[1..], t, p);
    }
  }

  /** The index of the last document that matches: the last element of
      `find(filter)`. */
  function FindLast<T>(s: seq<T>, p: T -> bool): (r: Option<nat>)
    ensures r.Some? ==> r.value < |s| && p(s[r.value])
    ensures r.Some? ==> forall j :: r.value < j < |s| ==> !p(s[j])
    ensures r.None? <==> forall j :: 0 <= j < |s| ==> !p(s[j])
  {
    if |s| == 0 then None
    else if p(s[|s| - 1]) then Some(|s| - 1)
    else FindLast(s[..|s| - 1], p)
  }

  /** `find(filter)`: the matching documents, in store order. The order is
      that of the store: a single document is kept or dropped, and
      `FilterAppend` splits any store; `FilterCount` gives multiplicities. */
  function Filter<T>(s: seq<T>, p: T -> bool): (r: seq<T>)
    ensures |r| <= |s|
    ensures forall i :: 0 <= i < |r| ==> r[i] in s && p(r[i])
    ensures forall j :: 0 <= j < |s| && p(s[j]) ==> s[j] in r
    ensures |s| == 1 ==> r == (if p(s[0]) then s else [])
  {
    if |s| == 0 then []
    else if p(s[0]) then [s[0]] + Filter(s[1..], p)
    else Filter(s[1..], p)
  }

  /** Each document occurs in `find(filter)` as often as in the store when
      it matches, and not at all otherwise. */
  lemma {:induction false} FilterCount<T>(s: seq<T>, p: T -> bool, x: T)
    ensures multiset(Filter(s, p))[x] == if p(x) then multiset(s)[x] else 0
  {
    if |s| > 0 {
      FilterCount(s[1..], p, x);
      assert s == [s[0]] + s[1..];
      assert multiset(s) == multiset([s[0]]) + multiset(s[1..]);
      if p(s[0]) {
        assert multiset(Filter(s, p)) == multiset([s[0]]) + multiset(Filter(s[1..], p));
      }
    }
  }

  /** Matching distributes over concatenation. */
  lemma {:induction false} FilterAppend<T>(s: seq<T>, t: seq<T>, p: T -> bool)
    ensures Filter(s + t, p) == Filter(s, p) + Filter(t, p)
  {
    if |s| == 0 {
      assert s + t == t;
    } else {
      assert (s + t)[0] == s[0];
      assert (s + t)[1..] == s[1..] + t;
      FilterAppend(s[1..], t, p);
      if p(s[0]) {
        assert Filter(s + t, p) == [s[0]] + Filter(s[1..] + t, p);
      } else {
        assert Filter(s + t, p) == Filter(s[1..] + t, p);
      }
    }
  }

  /** Removing the document at index `i` (`deleteOne`, `findByIdAndDelete`). */
  function RemoveAt<T>(s: seq<T>, i: nat): (r: seq<T>)
    requires i < |s|
    ensures |r| == |s| - 1
    ensures forall j :: 0 <= j < i ==> r[j] == s[j]
    ensures forall j :: i <= j < |r| ==> r[j] == s[j + 1]
  {
    s[..i] + s[i + 1..]
  }

  /** `.skip(skip).limit(limit)` on a query result. A negative skip makes
      the server reject the query (None). A limit of 0 means no limit and a
      negative limit -n returns at most n documents. */
  function SkipLimit<T>(s: seq<T>, skip: int, limit: int): (r: Option<seq<T>>)
    ensures r.None? <==> skip < 0
    ensures r.Some? ==> |r.value| <= |s|
    ensures r.Some? && limit != 0 ==> |r.value| <= Abs(limit)
    ensures r.Some? ==> forall i :: 0 <= i < |r.value| ==> skip + i < |s| && r.value[i] == s[skip + i]
    ensures r.Some? && skip < |s| && (limit == 0 || Abs(limit) >= |s| - skip) ==> |r.value| == |s| - skip
    ensures r.Some? ==> |r.value| == PageLength(|s|, skip, limit)
  {
    if skip < 0 then None
    else if skip >= |s| then Some([])
    else
      var rest := s[skip..];
      if limit == 0 || Abs(limit) >= |rest| then Some(rest) else Some(rest[..Abs(limit)])
  }

  function Abs(n: int): nat {
    if n < 0 then -n else n
  }

  /** How many of `n` documents `.skip(skip).limit(limit)` returns: none
      past the end, else the rest, cut to `|limit|` when a limit is set. */
  function PageLength(n: nat, skip: int, limit: int): nat {
    if skip < 0 || skip >= n then 0
    else if limit == 0 || Abs(limit) >= n - skip then n - skip
    else Abs(limit)
  }

  /** The filter `{ _id: id }` over documents whose `_id` is read by `oid`. */
  function OidIs<T>(oid: T -> string, id: string): T -> bool {
    (x: T) => oid(x) == id
  }

  /** `findById(id)`: an id that is not an ObjectId makes Mongoose throw a
      `CastError`; otherwise the index of the document with that `_id`. */
  function FindById<T>(s: seq<T>, oid: T -> string, id: string): (r: Result<Option<nat>>)
    ensures r.Err? <==> !IsMongoId(id)
    ensures r.Err? ==> r.error == CastError(id)
    ensures r.Ok? ==> r.value == FindFirst(s, OidIs(oid, id))
    ensures r.Ok? && r.value.Some? ==> r.value.value < |s| && oid(s[r.value.value]) == id
    ensures r.Ok? && r.value.None? ==> forall j :: 0 <= j < |s| ==> oid(s[j]) != id
  {
    if !IsMongoId(id) then Err(CastError(id)) else Ok(FindFirst(s, OidIs(oid, id)))
  }

  /** class-validator's `isMongoId`: 24 hexadecimal characters. It is also
      what Mongoose accepts when it casts a string to an ObjectId. */
  predicate IsMongoId(id: string) {
    |id| == 24 && forall i :: 0 <= i < |id| ==> IsHexDigit(id[i])
  }

  predicate IsHexDigit(c: char) {
    ('0' <= c <= '9') || ('a' <= c <= 'f') || ('A' <= c <= 'F')
  }
}
