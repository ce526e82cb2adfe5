/**
 * HistoryRepository: the list of completed study blocks, kept in memory and
 * persisted as a JSON array under one preferences key.
 */
module History {
  import opened Wrappers
  import opened Json
  import opened SessionRecord

  /** The subject every suggestion list starts with. */
  const DEFAULT_SUBJECT: string := "General"

  /*
   * The persisted value. The preferences entry is absent (None) or holds a
   * text that either is no JSON array at all or is an array of elements,
   * each a JSON object or something else.
   */
  datatype Element = Obj(fields: Object) | NotAnObject
  datatype Stored = NotAnArray | Array(elements: seq<Element>)

  // ---------------------------------------------------------------------
  // distinct() on lists of subjects: keep the first occurrence of each, in order

  predicate NoDuplicates(s: seq<string>) {
    forall i, j :: 0 <= i < j < |s| ==> s[i] != s[j]
  }

  /** The position of the first occurrence of x in s. */
  function IndexOf(s: seq<string>, x: string): (i: nat)
    requires x in s
    ensures i < |s| && s[i] == x && x !in s[..i]
  {
    if s[0] == x then 0 else 1 + IndexOf(s[1..], x)
  }

  /** r lists elements of s ordered by where each first appears in s. */
  predicate InFirstAppearanceOrder(s: seq<string>, r: seq<string>) {
    (forall x :: x in r ==> x in s)
    && forall i, j :: 0 <= i < j < |r| ==> IndexOf(s, r[i]) < IndexOf(s, r[j])
  }

  /** Kotlin's `distinct()`. */
  function Distinct(s: seq<string>): (r: seq<string>)
    ensures forall x :: x in r <==> x in s
    ensures NoDuplicates(r)
    decreases |s|
  {
    if s == [] then []
    else
      var d := Distinct(s[..|s| - 1]);
      assert s == s[..|s| - 1] + [s[|s| - 1]];
      if s[|s| - 1] in d then d else d + [s[|s| - 1]]
  }

  lemma {:induction false} IndexOfAppend(a: seq<string>, b: seq<string>, x: string)
    requires x in a + b
    ensures x in a ==> IndexOf(a + b, x) == IndexOf(a, x)
    ensures x !in a ==> x in b && IndexOf(a + b, x) == |a| + IndexOf(b, x)
  {
    if a != [] {
      assert (a + b)[1..] == a[1..] + b;
      if a[0] != x {
        IndexOfAppend(a[1..], b, x);
      }
    } else {
      assert a + b == b;
    }
  }

  /** distinct() keeps the order of first appearance. */
  lemma {:induction false} DistinctOrder(s: seq<string>)
    ensures InFirstAppearanceOrder(s, Distinct(s))
    decreases |s|
  {
    if s != [] {
      var p, y := s[..|s| - 1], s[|s| - 1];
      assert s == p + [y];
      var d := Distinct(p);
      DistinctOrder(p);
      forall x | x in d
        ensures IndexOf(s, x) == IndexOf(p, x) < |p|
      {
        IndexOfAppend(p, [y], x);
      }
      if y !in d {
        IndexOfAppend(p, [y], y);
        var r := d + [y];
        forall i, j | 0 <= i < j < |r|
          ensures IndexOf(s, r[i]) < IndexOf(s, r[j])
        {
          if j < |d| {
            assert r[i] == d[i] && r[j] == d[j];
          } else {
            assert r[i] == d[i] && r[j] == y;
          }
        }
      }
    }
  }

  /** The first element survives distinct(). */
  lemma DistinctHead(s: seq<string>)
    requires s != []
    ensures Distinct(s) != [] && Distinct(s)[0] == s[0]
  {
    assert s[0] in Distinct(s);
    DistinctOrder(s);
  }

  /** Removing duplicates from a suffix first does not change the result. */
  lemma {:induction false} DistinctOfDistinctSuffix(a: seq<string>, b: seq<string>)
    ensures Distinct(a + Distinct(b)) == Distinct(a + b)
    decreases |b|
  {
    if b == [] {
      assert a + [] == a;
    } else {
      var b', x := b[..|b| - 1], b[|b| - 1];
      var d' := Distinct(b');
      DistinctOfDistinctSuffix(a, b');
      assert (a + b)[..|a + b| - 1] == a + b' && (a + b)[|a + b| - 1] == x;
      assert Distinct(a + b) == if x in Distinct(a + b') then Distinct(a + b') else Distinct(a + b') + [x];
      assert x in Distinct(a + b') <==> x in a || x in d';
      if x !in d' {
        var l := a + d' + [x];
        assert a + Distinct(b) == l;
        assert l[..|l| - 1] == a + d' && l[|l| - 1] == x;
      } else {
        assert Distinct(b) == d';
      }
    }
  }

  // ---------------------------------------------------------------------
  // sortedByDescending { it.completedAt }

  predicate SortedNewestFirst(s: seq<Record>) {
    forall i, j :: 0 <= i < j < |s| ==> s[i].completedAt >= s[j].completedAt
  }

  /** Places x before the first element that is not newer than it. */
  function InsertNewestFirst(x: Record, s: seq<Record>): (r: seq<Record>)
    ensures multiset(r) == multiset([x] + s)
  {
    if s == [] || x.completedAt >= s[0].completedAt then [x] + s
    else
      assert s == [s[0]] + s[1..];
      [s[0]] + InsertNewestFirst(x, s[1..])
  }

  /** No record in s completed after time v. */
  predicate AllAtMost(s: seq<Record>, v: int) {
    forall k :: 0 <= k < |s| ==> s[k].completedAt <= v
  }

  lemma ConsSorted(h: Record, t: seq<Record>)
    requires SortedNewestFirst(t) && AllAtMost(t, h.completedAt)
    ensures SortedNewestFirst([h] + t)
  {
    var r := [h] + t;
    forall i, j | 0 <= i < j < |r|
      ensures r[i].completedAt >= r[j].completedAt
    {
      assert r[j] == t[j - 1];
      if i > 0 {
        assert r[i] == t[i - 1];
      }
    }
  }

  lemma {:induction false} InsertBounded(x: Record, s: seq<Record>, v: int)
    requires x.completedAt <= v && AllAtMost(s, v)
    ensures AllAtMost(InsertNewestFirst(x, s), v)
  {
    if !(s == [] || x.completedAt >= s[0].completedAt) {
      InsertBounded(x, s[1..], v);
    }
  }

  /** Inserting into a newest-first list keeps it newest-first. */
  lemma {:induction false} InsertKeepsSorted(x: Record, s: seq<Record>)
    requires SortedNewestFirst(s)
    ensures SortedNewestFirst(InsertNewestFirst(x, s))
  {
    if s == [] || x.completedAt >= s[0].completedAt {
      ConsSorted(x, s);
    } else {
      InsertKeepsSorted(x, s[1..]);
      InsertBounded(x, s[1..], s[0].completedAt);
      ConsSorted(s[0], InsertNewestFirst(x, s[1..]));
    }
  }

  /** A stable sort by `completedAt`, newest first. */
  function SortNewestFirst(s: seq<Record>): (r: seq<Record>)
    ensures multiset(r) == multiset(s)
    ensures SortedNewestFirst(r)
  {
    if s == [] then []
    else
      assert s == [s[0]] + s[1..];
      var t := SortNewestFirst(s[1..]);
      InsertKeepsSorted(s[0], t);
      InsertNewestFirst(s[0], t)
  }

  /** A list already newest-first comes out of the sort as it went in. */
  lemma {:induction false} SortKeepsSorted(s: seq<Record>)
    requires SortedNewestFirst(s)
    ensures SortNewestFirst(s) == s
  {
    if s != [] {
      SortKeepsSorted(s[1..]);
      assert s == [s[0]] + s[1..];
    }
  }

  // ---------------------------------------------------------------------
  // saveSessions / loadSessions

  /** The JSON array `saveSessions` writes: one object per record, in list order. */
  function Encoded(list: seq<Record>): (arr: seq<Element>)
    ensures |arr| == |list|
    ensures forall i :: 0 <= i < |arr| ==> arr[i].Obj? && arr[i].fields.Keys == RecordKeys
  {
    seq(|list|, i requires 0 <= i < |list| => Obj(ToJson(list[i])))
  }

  /** `arr.getJSONObject(i)` followed by `fromJson`. */
  function DecodeElement(e: Element): (r: Option<Record>)
    ensures r.Some? <==> e.Obj? && Readable(e.fields)
    ensures r.Some? ==> r.value.WellTyped()
  {
    match e
    case NotAnObject => None
    case Obj(fields) =>
      match FromJson(fields)
      case Ok(r) => Some(r)
      case Err(_) => None
  }

  /** Decodes every element in order; the first failure is the exception that aborts loading. */
  function DecodeAll(elems: seq<Element>): (r: Option<seq<Record>>)
    ensures r.Some? <==> forall i :: 0 <= i < |elems| ==> DecodeElement(elems[i]).Some?
    ensures r.Some? ==>
              |r.value| == |elems|
              && forall i :: 0 <= i < |elems| ==> DecodeElement(elems[i]) == Some(r.value[i])
  {
    if elems == [] then Some([])
    else
      match DecodeElement(elems[0])
      case None => None
      case Some(head) =>
        match DecodeAll(elems[1..])
        case None =>
          assert forall i :: 1 <= i < |elems| ==> elems[i] == elems[1..][i - 1];
          None
        case Some(tail) => Some([head] + tail)
  }

  /** `loadSessions`: nothing stored or any decoding fault gives the empty list. */
  function LoadSessions(stored: Option<Stored>): (r: seq<Record>)
    ensures SortedNewestFirst(r)
    ensures r != [] ==> stored.Some? && stored.value.Array? && DecodeAll(stored.value.elements).Some?
  {
    match stored
    case None => []
    case Some(NotAnArray) => []
    case Some(Array(elems)) =>
      match DecodeAll(elems)
      case None => []
      case Some(records) => SortNewestFirst(records)
  }

  /** What loading yields: always newest-first; empty on every failure; otherwise all records decoded. */
  lemma LoadSessionsLaw(stored: Option<Stored>)
    ensures SortedNewestFirst(LoadSessions(stored))
    ensures stored.None? || stored == Some(NotAnArray) ==> LoadSessions(stored) == []
    ensures forall e ::
              (stored.Some? && stored.value.Array? && e in stored.value.elements
               && DecodeElement(e).None?) ==> LoadSessions(stored) == []
    ensures stored.Some? && stored.value.Array? && DecodeAll(stored.value.elements).Some? ==>
      multiset(LoadSessions(stored)) == multiset(DecodeAll(stored.value.elements).value)
  {
  }

  /** Decoding what was saved gives the list back, element for element. */
  lemma DecodeEncoded(list: seq<Record>)
    requires forall r :: r in list ==> r.WellTyped()
    ensures DecodeAll(Encoded(list)) == Some(list)
  {
    var arr := Encoded(list);
    forall i | 0 <= i < |arr|
      ensures DecodeElement(arr[i]) == Some(list[i])
    {
      RoundTrip(list[i]);
    }
    var d := DecodeAll(arr);
    assert d.Some? && d.value == list;
  }

  /**
   * Loading after `saveSessions(list)` gives a newest-first permutation of
   * list, and list itself when it was already newest-first.
   */
  lemma LoadAfterSave(list: seq<Record>)
    requires forall r :: r in list ==> r.WellTyped()
    ensures multiset(LoadSessions(Some(Array(Encoded(list))))) == multiset(list)
    ensures SortedNewestFirst(LoadSessions(Some(Array(Encoded(list)))))
    ensures SortedNewestFirst(list) ==> LoadSessions(Some(Array(Encoded(list)))) == list
  {
    DecodeEncoded(list);
    if SortedNewestFirst(list) {
      SortKeepsSorted(list);
    }
  }

  /** The `forEach` loop of `saveSessions` that fills the JSON array. */
  method EncodeSessions(list: seq<Record>) returns (arr: seq<Element>)
    ensures |arr| == |list|
    ensures forall i :: 0 <= i < |list| ==> arr[i] == Obj(ToJson(list[i]))
  {
    arr := [];
    var i := 0;
    while i < |list|
      invariant 0 <= i <= |list|
      invariant |arr| == i
      invariant forall k :: 0 <= k < i ==> arr[k] == Obj(ToJson(list[k]))
    {
      arr := arr + [Obj(ToJson(list[i]))];
      i := i + 1;
    }
  }

  /** The subjects of the sessions, in list order (`map { it.subject }`). */
  function Subjects(sessions: seq<Record>): (r: seq<string>)
    ensures |r| == |sessions|
    ensures forall i :: 0 <= i < |sessions| ==> r[i] == sessions[i].subject
  {
    seq(|sessions|, i requires 0 <= i < |sessions| => sessions[i].subject)
  }

  class HistoryRepository {
    /** The in-memory list that the `sessions` flow publishes. */
    var sessions: seq<Record>
    /** The preferences entry the list is persisted under. */
    var prefs: Option<Stored>

    /** The persisted entry holds exactly the in-memory list. */
    predicate Persisted()
      reads this
    {
      prefs == Some(Array(Encoded(sessions)))
    }

    /** Construction loads whatever the preferences hold. */
    constructor (stored: Option<Stored>)
      ensures prefs == stored
      ensures sessions == LoadSessions(stored)
    {
      prefs := stored;
      sessions := LoadSessions(stored);
    }

    /** `addSession`: append at the end, no deduplication, then persist the whole list. */
    method AddSession(record: Record)
      modifies this
      ensures sessions == old(sessions) + [record]
      ensures Persisted()
    {
      var list := sessions + [record];
      sessions := list;
      SaveSessions(list);
    }

    /** `clearHistory`: both the in-memory and the persisted list become empty. */
    method ClearHistory()
      modifies this
      ensures sessions == []
      ensures Persisted() && prefs == Some(Array([]))
    {
      sessions := [];
      SaveSessions([]);
      assert Encoded([]) == [];
    }

    /** `saveSessions`: write the encoded list to the preferences entry. */
    method SaveSessions(list: seq<Record>)
      modifies this`prefs
      ensures prefs == Some(Array(Encoded(list)))
    {
      var arr := EncodeSessions(list);
      assert arr == Encoded(list);
      prefs := Some(Array(arr));
    }

    /**
     * `getSubjectSuggestions`: "General" first, then every stored subject
     * once, in the order of first appearance.
     */
    function GetSubjectSuggestions(): (r: seq<string>)
      reads this
      ensures |r| > 0 && r[0] == DEFAULT_SUBJECT
      ensures NoDuplicates(r)
      ensures forall x :: x in r <==> x == DEFAULT_SUBJECT || x in Subjects(sessions)
      ensures InFirstAppearanceOrder([DEFAULT_SUBJECT] + Subjects(sessions), r)
    {
      var all := [DEFAULT_SUBJECT] + Subjects(sessions);
      DistinctOfDistinctSuffix([DEFAULT_SUBJECT], Subjects(sessions));
      DistinctHead(all);
      DistinctOrder(all);
      Distinct([DEFAULT_SUBJECT] + Distinct(Subjects(sessions)))
    }
  }
}
