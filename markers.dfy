/** The reverse direction of src/format.js: re-inserting markdown markers at
    the boundaries of a text's entities. Entities that end at a position
    close there, shortest first; entities that start at a position open
    there, longest first; closes come before opens. Link entities have no
    markers and are dropped. */
module MarkdownMarkers {
  import opened Entities

  /** The opening and closing marker of one entity kind. */
  datatype Markers = Markers(open: string, close: string)

  /** A marker pair queued at a position, with the entity's length as the
      sort key. */
  datatype Mark = Mark(open: string, close: string, length: int)

  function Reverse(s: string): (r: string)
    ensures |r| == |s|
  {
    if s == [] then [] else Reverse(s[1..]) + [s[0]]
  }

  /** entityToMarkers: every kind but a link has a non-empty opening marker
      whose mirror image is the closing marker. */
  function EntityToMarkers(k: Kind): (r: Option<Markers>)
    ensures r.None? <==> k == TextLink
    ensures r.Some? ==> |r.value.open| > 0 && r.value.close == Reverse(r.value.open)
  {
    match k
    case Bold => Some(Markers("**", "**"))
    case Italic => Some(Markers("*", "*"))
    case Strikethrough => Some(Markers("~~", "~~"))
    case Code => Some(Markers("`", "`"))
    case Pre => Some(Markers("```\n", "\n```"))
    case TextLink => None
  }

  predicate HasMarkers(e: Entity) {
    EntityToMarkers(e.kind).Some?
  }

  function MarkOf(e: Entity): Mark
    requires HasMarkers(e)
  {
    var m := EntityToMarkers(e.kind).value;
    Mark(m.open, m.close, e.length)
  }

  /** What the source leaves to its callers: the boundaries of every entity
      that has markers lie inside the text. */
  predicate MarkersInText(text: string, es: seq<Entity>) {
    forall k :: 0 <= k < |es| && HasMarkers(es[k]) ==>
      0 <= es[k].offset <= |text| && 0 <= es[k].End() <= |text|
  }

  // ---------------------------------------------------------------------
  // The marks queued at each position

  /** The marks of the entities starting at p, in input order. */
  function OpensAt(es: seq<Entity>, p: int): seq<Mark> {
    if es == [] then []
    else
      var e := es[|es| - 1];
      OpensAt(es[..|es| - 1], p) + if HasMarkers(e) && e.offset == p then [MarkOf(e)] else []
  }

  /** The marks of the entities ending at p, in input order. */
  function ClosesAt(es: seq<Entity>, p: int): seq<Mark> {
    if es == [] then []
    else
      var e := es[|es| - 1];
      ClosesAt(es[..|es| - 1], p) + if HasMarkers(e) && e.End() == p then [MarkOf(e)] else []
  }

  /** Marks are queued only inside the text. */
  lemma {:induction false} MarksInText(text: string, es: seq<Entity>, p: int)
    requires MarkersInText(text, es)
    ensures OpensAt(es, p) != [] || ClosesAt(es, p) != [] ==> 0 <= p <= |text|
  {
    if es != [] {
      MarksInText(text, es[..|es| - 1], p);
    }
  }

  // ---------------------------------------------------------------------
  // Stable sort by length

  /** `a` may stay in front of `b`: longest first for opens, shortest first
      for closes. */
  predicate Precedes(a: Mark, b: Mark, longestFirst: bool) {
    if longestFirst then a.length >= b.length else a.length <= b.length
  }

  predicate SortedBy(s: seq<Mark>, longestFirst: bool) {
    forall i, j :: 0 <= i < j < |s| ==> Precedes(s[i], s[j], longestFirst)
  }

  /** Puts x behind every element that precedes it or ties with it. */
  function Insert(x: Mark, s: seq<Mark>, longestFirst: bool): seq<Mark> {
    if s == [] then [x]
    else if Precedes(s[0], x, longestFirst) then [s[0]] + Insert(x, s[1..], longestFirst)
    else [x] + s
  }

  /** The comparator sort the source runs on every list; the built-in sort
      is stable, so its result is determined and insertion gives it. */
  function SortBy(s: seq<Mark>, longestFirst: bool): seq<Mark> {
    if s == [] then []
    else Insert(s[|s| - 1], SortBy(s[..|s| - 1], longestFirst), longestFirst)
  }

  /** Every mark of s may stay behind y. */
  predicate AllBehind(y: Mark, s: seq<Mark>, longestFirst: bool) {
    forall k :: 0 <= k < |s| ==> Precedes(y, s[k], longestFirst)
  }

  lemma {:induction false} InsertBehind(y: Mark, x: Mark, s: seq<Mark>, longestFirst: bool)
    requires AllBehind(y, s, longestFirst) && Precedes(y, x, longestFirst)
    ensures AllBehind(y, Insert(x, s, longestFirst), longestFirst)
  {
    if s != [] && Precedes(s[0], x, longestFirst) {
      InsertBehind(y, x, s[1..], longestFirst);
    }
  }

  lemma {:induction false} InsertSorted(x: Mark, s: seq<Mark>, longestFirst: bool)
    requires SortedBy(s, longestFirst)
    ensures SortedBy(Insert(x, s, longestFirst), longestFirst)
  {
    if s != [] && Precedes(s[0], x, longestFirst) {
      var tail := s[1..];
      assert SortedBy(tail, longestFirst) by {
        forall i, j | 0 <= i < j < |tail|
          ensures Precedes(tail[i], tail[j], longestFirst)
        {
          assert tail[i] == s[i + 1] && tail[j] == s[j + 1];
        }
      }
      InsertSorted(x, tail, longestFirst);
      assert AllBehind(s[0], tail, longestFirst) by {
        forall k | 0 <= k < |tail|
          ensures Precedes(s[0], tail[k], longestFirst)
        {
          assert tail[k] == s[k + 1];
        }
      }
      InsertBehind(s[0], x, tail, longestFirst);
    }
  }

  lemma {:induction false} InsertPermutes(x: Mark, s: seq<Mark>, longestFirst: bool)
    ensures multiset(Insert(x, s, longestFirst)) == multiset(s) + multiset{x}
  {
    if s != [] {
      assert s == [s[0]] + s[1..];
      if Precedes(s[0], x, longestFirst) {
        InsertPermutes(x, s[1..], longestFirst);
      }
    }
  }

  /** The sorted list is in order and a permutation of the input. */
  lemma {:induction false} SortBySorted(s: seq<Mark>, longestFirst: bool)
    ensures SortedBy(SortBy(s, longestFirst), longestFirst)
    ensures multiset(SortBy(s, longestFirst)) == multiset(s)
  {
    if s != [] {
      var init := s[..|s| - 1];
      SortBySorted(init, longestFirst);
      InsertSorted(s[|s| - 1], SortBy(init, longestFirst), longestFirst);
      InsertPermutes(s[|s| - 1], SortBy(init, longestFirst), longestFirst);
      assert s == init + [s[|s| - 1]];
    }
  }

  /** The marks of length n, in the order they occur. */
  function WithLength(s: seq<Mark>, n: int): seq<Mark> {
    if s == [] then []
    else (if s[0].length == n then [s[0]] else []) + WithLength(s[1..], n)
  }

  lemma {:induction false} WithLengthAppend(a: seq<Mark>, b: seq<Mark>, n: int)
    ensures WithLength(a + b, n) == WithLength(a, n) + WithLength(b, n)
  {
    if a != [] {
      assert (a + b)[1..] == a[1..] + b;
      WithLengthAppend(a[1..], b, n);
    } else {
      assert a + b == b;
    }
  }

  lemma {:induction false} InsertStable(x: Mark, s: seq<Mark>, longestFirst: bool, n: int)
    requires SortedBy(s, longestFirst)
    ensures WithLength(Insert(x, s, longestFirst), n)
      == WithLength(s, n) + if x.length == n then [x] else []
  {
    if s == [] {
    } else if Precedes(s[0], x, longestFirst) {
      InsertStable(x, s[1..], longestFirst, n);
      WithLengthAppend([s[0]], Insert(x, s[1..], longestFirst), n);
    } else {
      // every mark of s comes strictly after x, so none ties with it
      if x.length == n {
        NoneOfLength(s, longestFirst, n);
      }
      WithLengthAppend([x], s, n);
    }
  }

  lemma {:induction false} NoneOfLength(s: seq<Mark>, longestFirst: bool, n: int)
    requires s != [] && SortedBy(s, longestFirst)
    requires if longestFirst then s[0].length < n else s[0].length > n
    ensures WithLength(s, n) == []
  {
    if |s| > 1 {
      assert Precedes(s[0], s[1], longestFirst);
      assert SortedBy(s[1..], longestFirst) by {
        forall i, j | 0 <= i < j < |s[1..]|
          ensures Precedes(s[1..][i], s[1..][j], longestFirst)
        {
          assert s[1..][i] == s[i + 1] && s[1..][j] == s[j + 1];
        }
      }
      NoneOfLength(s[1..], longestFirst, n);
    }
  }

  /** The sort is stable: marks of equal length keep their input order. */
  lemma {:induction false} SortByStable(s: seq<Mark>, longestFirst: bool, n: int)
    ensures WithLength(SortBy(s, longestFirst), n) == WithLength(s, n)
  {
    if s != [] {
      var init := s[..|s| - 1];
      var x := s[|s| - 1];
      assert s == init + [x];
      SortByStable(init, longestFirst, n);
      SortBySorted(init, longestFirst);
      InsertStable(x, SortBy(init, longestFirst), longestFirst, n);
      WithLengthAppend(init, [x], n);
      assert [x][1..] == [];
      assert WithLength([x], n) == if x.length == n then [x] else [];
    }
  }

  // ---------------------------------------------------------------------
  // The reference definition of the output

  function Openers(ms: seq<Mark>): string {
    if ms == [] then "" else Openers(ms[..|ms| - 1]) + ms[|ms| - 1].open
  }

  function Closers(ms: seq<Mark>): string {
    if ms == [] then "" else Closers(ms[..|ms| - 1]) + ms[|ms| - 1].close
  }

  /** Everything inserted at position p: closes shortest first, then opens
      longest first. */
  function MarkersAt(es: seq<Entity>, p: int): string {
    Closers(SortBy(ClosesAt(es, p), false)) + Openers(SortBy(OpensAt(es, p), true))
  }

  /** The markers of positions 0..n. */
  function MarkerTable(es: seq<Entity>, n: nat): seq<string> {
    seq(n + 1, p requires 0 <= p <= n => MarkersAt(es, p))
  }

  /** A mark that writes something both when it opens and when it closes. */
  predicate Visible(m: Mark) {
    |m.open| > 0 && |m.close| > 0
  }

  /** The queue at p is empty exactly when no entity with markers has its
      boundary at p, and every queued mark is visible. */
  lemma {:induction false} QueueEmpty(es: seq<Entity>, p: int, opening: bool)
    ensures Queue(es, p, opening) == []
      <==> forall k :: 0 <= k < |es| && HasMarkers(es[k]) ==> Boundary(es[k], opening) != p
    ensures forall m :: m in Queue(es, p, opening) ==> Visible(m)
  {
    if es != [] {
      var i := |es| - 1;
      QueueEmpty(es[..i], p, opening);
      QueueSnoc(es, i, p, opening);
      assert es[..i + 1] == es;
      if HasMarkers(es[i]) && Boundary(es[i], opening) == p {
        assert MarkOf(es[i]) in Queue(es, p, opening);
      } else {
        assert forall k :: 0 <= k < i ==> es[..i][k] == es[k];
      }
    }
  }

  /** Sorting keeps the length and keeps every mark visible. */
  lemma SortByVisible(s: seq<Mark>, longestFirst: bool)
    requires forall m :: m in s ==> Visible(m)
    ensures |SortBy(s, longestFirst)| == |s|
    ensures forall m :: m in SortBy(s, longestFirst) ==> Visible(m)
  {
    SortBySorted(s, longestFirst);
    assert |multiset(SortBy(s, longestFirst))| == |multiset(s)|;
    forall m | m in SortBy(s, longestFirst)
      ensures Visible(m)
    {
      assert m in multiset(SortBy(s, longestFirst));
    }
  }

  /** Visible marks write nothing only when there are none. */
  lemma OpenersEmpty(ms: seq<Mark>)
    requires forall m :: m in ms ==> Visible(m)
    ensures Openers(ms) == "" <==> ms == []
    ensures Closers(ms) == "" <==> ms == []
  {
    if ms != [] {
      assert Visible(ms[|ms| - 1]);
    }
  }

  /** Nothing is inserted at p exactly when no entity with markers starts or
      ends there. */
  lemma MarkersAtEmpty(es: seq<Entity>, p: int)
    ensures MarkersAt(es, p) == ""
      <==> forall k :: 0 <= k < |es| && HasMarkers(es[k]) ==> es[k].offset != p && es[k].End() != p
  {
    QueueEmpty(es, p, true);
    QueueEmpty(es, p, false);
    SortByVisible(OpensAt(es, p), true);
    SortByVisible(ClosesAt(es, p), false);
    OpenersEmpty(SortBy(OpensAt(es, p), true));
    OpenersEmpty(SortBy(ClosesAt(es, p), false));
  }

  /** The text up to position q, with marks[p] in front of the character
      at each position p and marks[q] at the end. */
  function Interleave(text: string, marks: seq<string>, q: nat): string
    requires |marks| == |text| + 1 && q <= |text|
  {
    if q == 0 then marks[0]
    else Interleave(text, marks, q - 1) + [text[q - 1]] + marks[q]
  }

  /** The reference result: every character of the text, with the markers
      of each position in front of the character at that position. */
  function Decorated(text: string, es: seq<Entity>): string {
    Interleave(text, MarkerTable(es, |text|), |text|)
  }

  /** Between positions without markers the text is copied unchanged. */
  lemma {:induction false} Gap(text: string, marks: seq<string>, q: nat, r: nat)
    requires |marks| == |text| + 1 && q < r <= |text|
    requires forall m :: q < m < r ==> marks[m] == ""
    ensures Interleave(text, marks, r) == Interleave(text, marks, q) + text[q..r] + marks[r]
  {
    if r - 1 > q {
      Gap(text, marks, q, r - 1);
      assert text[q..r] == text[q..r - 1] + [text[r - 1]];
    } else {
      assert text[q..r] == [text[r - 1]];
    }
  }

  /** With no marker anywhere the text comes back unchanged. */
  lemma {:induction false} DecoratedPlain(text: string, es: seq<Entity>)
    requires forall k :: 0 <= k < |es| ==> !HasMarkers(es[k])
    ensures Decorated(text, es) == text
  {
    var marks := MarkerTable(es, |text|);
    forall m | 0 <= m <= |text| ensures marks[m] == "" {
      NoMarks(es, m);
    }
    if |text| > 0 {
      Gap(text, marks, 0, |text|);
      assert text[0..|text|] == text;
    }
  }

  lemma {:induction false} NoMarks(es: seq<Entity>, p: int)
    requires forall k :: 0 <= k < |es| ==> !HasMarkers(es[k])
    ensures OpensAt(es, p) == [] && ClosesAt(es, p) == [] && MarkersAt(es, p) == ""
  {
    if es != [] {
      NoMarks(es[..|es| - 1], p);
    }
  }

  /** Marks at two positions only: the text comes back with the first
      mark in front of position o and the second in front of position end. */
  lemma Wrap(text: string, marks: seq<string>, o: nat, end: nat)
    requires |marks| == |text| + 1 && o < end <= |text|
    requires forall m :: 0 <= m <= |text| && m != o && m != end ==> marks[m] == ""
    ensures Interleave(text, marks, |text|)
      == text[..o] + marks[o] + text[o..end] + marks[end] + text[end..]
  {
    if o > 0 {
      Gap(text, marks, 0, o);
      assert text[0..o] == text[..o];
    }
    assert Interleave(text, marks, o) == text[..o] + marks[o];
    Gap(text, marks, o, end);
    if end < |text| {
      Gap(text, marks, end, |text|);
    }
    assert text[end..|text|] == text[end..];
  }

  /** The markers of a single entity: its opening marker at its start, its
      closing marker at its end, nothing elsewhere. */
  lemma SingleMarks(e: Entity, p: int)
    requires HasMarkers(e) && 0 < e.length
    ensures var m := EntityToMarkers(e.kind).value;
      MarkersAt([e], p) == if p == e.offset then m.open else if p == e.End() then m.close else ""
  {
    var es := [e];
    assert es[..0] == [];
    assert SortBy([], true) == [] && SortBy([], false) == [];
    assert [MarkOf(e)][..0] == [];
    assert SortBy([MarkOf(e)], true) == [MarkOf(e)];
    assert SortBy([MarkOf(e)], false) == [MarkOf(e)];
    assert OpensAt(es, p) == if p == e.offset then [MarkOf(e)] else [];
    assert ClosesAt(es, p) == if p == e.End() then [MarkOf(e)] else [];
    assert Openers([MarkOf(e)]) == MarkOf(e).open;
    assert Closers([MarkOf(e)]) == MarkOf(e).close;
  }

  /** One entity with markers wraps exactly its span. */
  lemma SingleEntity(text: string, e: Entity)
    requires HasMarkers(e) && 0 <= e.offset && 0 < e.length && e.End() <= |text|
    ensures var m := EntityToMarkers(e.kind).value;
      Decorated(text, [e])
        == text[..e.offset] + m.open + text[e.offset..e.End()] + m.close + text[e.End()..]
  {
    var marks := MarkerTable([e], |text|);
    forall q | 0 <= q <= |text|
      ensures marks[q] == MarkersAt([e], q)
    {}
    forall q | 0 <= q <= |text| {
      SingleMarks(e, q);
    }
    Wrap(text, marks, e.offset, e.End());
  }

  // ---------------------------------------------------------------------
  // The procedure

  /** The marks queued at each position: opens or closes. */
  function Queue(es: seq<Entity>, p: int, opening: bool): seq<Mark> {
    if opening then OpensAt(es, p) else ClosesAt(es, p)
  }

  /** A map holds exactly the non-empty queues, keyed by position. */
  ghost predicate Tracks(m: map<int, seq<Mark>>, es: seq<Entity>, opening: bool) {
    forall p :: (p in m <==> Queue(es, p, opening) != []) && (p in m ==> m[p] == Queue(es, p, opening))
  }

  /** The boundary an entity's mark is queued at: its start for opens, its
      end for closes. */
  function Boundary(e: Entity, opening: bool): int {
    if opening then e.offset else e.End()
  }

  /** Taking one more entity with markers into account appends its mark to
      the queue at its boundary. */
  lemma TracksAdd(m: map<int, seq<Mark>>, m': map<int, seq<Mark>>, es: seq<Entity>, i: nat, opening: bool)
    requires i < |es| && HasMarkers(es[i]) && Tracks(m, es[..i], opening)
    requires var key := Boundary(es[i], opening);
      m' == m[key := (if key in m then m[key] else []) + [MarkOf(es[i])]]
    ensures Tracks(m', es[..i + 1], opening)
  {
    forall p
      ensures (p in m' <==> Queue(es[..i + 1], p, opening) != [])
           && (p in m' ==> m'[p] == Queue(es[..i + 1], p, opening))
    {
      QueueSnoc(es, i, p, opening);
    }
  }

  /** An entity without markers (a link) changes no queue. */
  lemma TracksSkip(m: map<int, seq<Mark>>, es: seq<Entity>, i: nat, opening: bool)
    requires i < |es| && !HasMarkers(es[i]) && Tracks(m, es[..i], opening)
    ensures Tracks(m, es[..i + 1], opening)
  {
    forall p
      ensures Queue(es[..i + 1], p, opening) == Queue(es[..i], p, opening)
    {
      QueueSnoc(es, i, p, opening);
    }
  }

  /** The queue at p after one more entity: its mark is appended when it has
      markers and its boundary is p. */
  lemma QueueSnoc(es: seq<Entity>, i: nat, p: int, opening: bool)
    requires i < |es|
    ensures var e := es[i];
      Queue(es[..i + 1], p, opening)
        == Queue(es[..i], p, opening) + if HasMarkers(e) && Boundary(e, opening) == p then [MarkOf(e)] else []
  {
    assert es[..i + 1][..i] == es[..i];
  }

  /** The first loop: the marks queued at each start and end position. */
  method CollectMarks(entities: seq<Entity>) returns (opens: map<int, seq<Mark>>, closes: map<int, seq<Mark>>)
    ensures Tracks(opens, entities, true) && Tracks(closes, entities, false)
  {
    opens, closes := map[], map[];
    for i := 0 to |entities|
      invariant Tracks(opens, entities[..i], true) && Tracks(closes, entities[..i], false)
    {
      opens, closes := CollectOne(opens, closes, entities, i);
    }
    assert entities[..|entities|] == entities;
  }

  /** One turn of the first loop: queues the markers of entity i, if any. */
  method CollectOne(opens: map<int, seq<Mark>>, closes: map<int, seq<Mark>>, entities: seq<Entity>, i: nat)
    returns (opens': map<int, seq<Mark>>, closes': map<int, seq<Mark>>)
    requires i < |entities|
    requires Tracks(opens, entities[..i], true) && Tracks(closes, entities[..i], false)
    ensures Tracks(opens', entities[..i + 1], true) && Tracks(closes', entities[..i + 1], false)
  {
    var e := entities[i];
    var markers := EntityToMarkers(e.kind);
    if markers.None? {
      TracksSkip(opens, entities, i, true);
      TracksSkip(closes, entities, i, false);
      return opens, closes;
    }
    var start, end := e.offset, e.offset + e.length;
    var mark := Mark(markers.value.open, markers.value.close, e.length);
    assert mark == MarkOf(e) && start == Boundary(e, true) && end == Boundary(e, false);
    opens' := Enqueue(opens, start, mark);
    closes' := Enqueue(closes, end, mark);
    TracksAdd(opens, opens', entities, i, true);
    TracksAdd(closes, closes', entities, i, false);
  }

  /** Pushes a mark onto the list at `key`, creating the list when missing. */
  method Enqueue(m: map<int, seq<Mark>>, key: int, mark: Mark) returns (r: map<int, seq<Mark>>)
    ensures r == m[key := (if key in m then m[key] else []) + [mark]]
  {
    r := m;
    if key !in r {
      r := r[key := []];
    }
    r := r[key := r[key] + [mark]];
  }

  /** Sorts every list of the map by length. */
  method SortLists(m: map<int, seq<Mark>>, longestFirst: bool) returns (r: map<int, seq<Mark>>)
    ensures r.Keys == m.Keys
    ensures forall p :: p in r ==> r[p] == SortBy(m[p], longestFirst)
  {
    r := m;
    var todo := m.Keys;
    while todo != {}
      invariant todo <= m.Keys && r.Keys == m.Keys
      invariant forall p :: p in r ==> r[p] == if p in todo then m[p] else SortBy(m[p], longestFirst)
      decreases |todo|
    {
      NonEmpty(todo);
      var p :| p in todo;
      r := r[p := SortBy(r[p], longestFirst)];
      todo := todo - {p};
    }
  }

  lemma NonEmpty(s: set<int>)
    requires s != {}
    ensures exists y :: y in s
  {
    if forall y :: y !in s {
      assert false;
    }
  }

  lemma {:induction false} MinExists(s: set<int>)
    requires s != {}
    ensures exists m :: m in s && forall q :: q in s ==> m <= q
  {
    NonEmpty(s);
    var x :| x in s;
    if s != {x} {
      MinExists(s - {x});
      var m :| m in s - {x} && forall q :: q in s - {x} ==> m <= q;
      var least := if x < m then x else m;
      forall q | q in s
        ensures least <= q
      {
        if q != x {
          assert q in s - {x};
        }
      }
    }
  }

  /** The distinct positions in increasing order. */
  method OrderedPositions(keys: set<int>) returns (ordered: seq<int>)
    ensures forall i, j :: 0 <= i < j < |ordered| ==> ordered[i] < ordered[j]
    ensures forall p :: p in keys <==> p in ordered
  {
    ordered := [];
    var rest := keys;
    while rest != {}
      invariant rest <= keys
      invariant forall p :: p in keys <==> p in ordered || p in rest
      invariant forall i, j :: 0 <= i < j < |ordered| ==> ordered[i] < ordered[j]
      invariant forall i, q :: 0 <= i < |ordered| && q in rest ==> ordered[i] < q
      decreases |rest|
    {
      MinExists(rest);
      var m :| m in rest && forall q :: q in rest ==> m <= q;
      ordered := ordered + [m];
      rest := rest - {m};
    }
  }

  /** The markers a pair of sorted queue maps puts at position q. */
  function Queued(opens: map<int, seq<Mark>>, closes: map<int, seq<Mark>>, q: int): string {
    (if q in closes then Closers(closes[q]) else "") + (if q in opens then Openers(opens[q]) else "")
  }

  /** The closing markers queued at p, in order. */
  method ClosersAt(closes: map<int, seq<Mark>>, p: int) returns (out: string)
    ensures out == if p in closes then Closers(closes[p]) else ""
  {
    out := "";
    if p !in closes {
      return;
    }
    var ms := closes[p];
    for j := 0 to |ms|
      invariant out == Closers(ms[..j])
    {
      assert ms[..j + 1][..j] == ms[..j];
      out := out + ms[j].close;
    }
    assert ms[..|ms|] == ms;
  }

  /** The opening markers queued at p, in order. */
  method OpenersAt(opens: map<int, seq<Mark>>, p: int) returns (out: string)
    ensures out == if p in opens then Openers(opens[p]) else ""
  {
    out := "";
    if p !in opens {
      return;
    }
    var ms := opens[p];
    for j := 0 to |ms|
      invariant out == Openers(ms[..j])
    {
      assert ms[..j + 1][..j] == ms[..j];
      out := out + ms[j].open;
    }
    assert ms[..|ms|] == ms;
  }

  /** One step of the output loop: the text since the previous position,
      then the closing markers, then the opening markers of position p. */
  method EmitAt(prefix: string, text: string, pos: int, p: int,
                opens: map<int, seq<Mark>>, closes: map<int, seq<Mark>>) returns (out: string)
    requires 0 <= pos <= |text| && p <= |text|
    ensures out == prefix + (if p > pos then text[pos..p] else "") + Queued(opens, closes, p)
  {
    var copied := if p > pos then text[pos..p] else "";
    var closing := ClosersAt(closes, p);
    var opening := OpenersAt(opens, p);
    out := prefix + copied + (closing + opening);
  }

  predicate Increasing(ordered: seq<int>) {
    forall i, j :: 0 <= i < j < |ordered| ==> ordered[i] < ordered[j]
  }

  /** A position strictly between entries k and k + 1 of an increasing list
      (before the first when k is -1, after the last when k is the last
      index) is not in the list. */
  lemma Unlisted(ordered: seq<int>, k: int, m: int)
    requires Increasing(ordered) && -1 <= k < |ordered|
    requires k >= 0 ==> ordered[k] < m
    requires k + 1 < |ordered| ==> m < ordered[k + 1]
    ensures m !in ordered
  {
    forall i | 0 <= i < |ordered|
      ensures ordered[i] != m
    {
      if i < k {
        assert ordered[i] < ordered[k];
      } else if i > k + 1 {
        assert ordered[k + 1] < ordered[i];
      }
    }
  }

  /** One turn of the output loop extends the interleaving from the previous
      position to the next listed one. */
  lemma EmitStep(text: string, ordered: seq<int>, marks: seq<string>, k: nat, pos: nat, before: string)
    requires |marks| == |text| + 1 && Increasing(ordered) && k < |ordered|
    requires 0 <= pos <= |text| && 0 <= ordered[k] <= |text|
    requires forall q :: 0 <= q <= |text| && q !in ordered ==> marks[q] == ""
    requires k == 0 ==> before == "" && pos == 0
    requires k > 0 ==> pos == ordered[k - 1] && before == Interleave(text, marks, pos)
    ensures var p := ordered[k];
      before + (if p > pos then text[pos..p] else "") + marks[p] == Interleave(text, marks, p)
  {
    var p := ordered[k];
    if pos < p {
      forall m | pos < m < p
        ensures marks[m] == ""
      {
        Unlisted(ordered, k - 1, m);
      }
      if k == 0 {
        Unlisted(ordered, -1, 0);
        assert marks[0] == "";
      }
      Gap(text, marks, pos, p);
    }
  }

  /** After the last listed position the rest of the text is copied. */
  lemma EmitTail(text: string, ordered: seq<int>, marks: seq<string>, pos: nat, out: string)
    requires |marks| == |text| + 1 && Increasing(ordered) && 0 <= pos <= |text|
    requires forall q :: 0 <= q <= |text| && q !in ordered ==> marks[q] == ""
    requires |ordered| == 0 ==> out == "" && pos == 0
    requires |ordered| > 0 ==> pos == ordered[|ordered| - 1] && out == Interleave(text, marks, pos)
    ensures (if pos < |text| then out + text[pos..] else out) == Interleave(text, marks, |text|)
  {
    if |ordered| == 0 {
      assert marks[0] == "" by {
        assert 0 !in ordered;
      }
    }
    if pos < |text| {
      forall m | pos < m <= |text|
        ensures marks[m] == ""
      {
        Unlisted(ordered, |ordered| - 1, m);
      }
      Gap(text, marks, pos, |text|);
    }
  }

  /** The output loop: walks the positions in increasing order, copying the
      text up to each one and then its closing and opening markers. */
  method Emit(text: string, ordered: seq<int>, opens: map<int, seq<Mark>>, closes: map<int, seq<Mark>>,
              ghost marks: seq<string>) returns (out: string)
    requires |marks| == |text| + 1
    requires Increasing(ordered)
    requires forall i :: 0 <= i < |ordered| ==> 0 <= ordered[i] <= |text|
    requires forall i :: 0 <= i < |ordered| ==> marks[ordered[i]] == Queued(opens, closes, ordered[i])
    requires forall q :: 0 <= q <= |text| && q !in ordered ==> marks[q] == ""
    ensures out == Interleave(text, marks, |text|)
  {
    out := "";
    var pos := 0;
    for k := 0 to |ordered|
      invariant 0 <= pos <= |text|
      invariant k == 0 ==> out == "" && pos == 0
      invariant k > 0 ==> pos == ordered[k - 1] && out == Interleave(text, marks, pos)
    {
      var p := ordered[k];
      EmitStep(text, ordered, marks, k, pos, out);
      out := EmitAt(out, text, pos, p, opens, closes);
      pos := p;
    }
    EmitTail(text, ordered, marks, pos, out);
    if pos < |text| {
      out := out + text[pos..];
    }
  }

  /** applyEntitiesToMarkdown: the text with every entity's markers
      re-inserted, equal to the reference definition. */
  method ApplyEntitiesToMarkdown(text: string, entities: seq<Entity>) returns (out: string)
    requires MarkersInText(text, entities)
    ensures out == Decorated(text, entities)
  {
    if |entities| == 0 {
      DecoratedPlain(text, entities);
      return text;
    }
    var opens, closes := CollectMarks(entities);
    var sortedOpens := SortLists(opens, true);
    var sortedCloses := SortLists(closes, false);
    var ordered := OrderedPositions(opens.Keys + closes.Keys);
    ghost var marks := MarkerTable(entities, |text|);
    forall q | 0 <= q <= |text|
      ensures marks[q] == Queued(sortedOpens, sortedCloses, q)
    {
      assert marks[q] == MarkersAt(entities, q);
      if q !in opens {
        assert Queue(entities, q, true) == [];
      }
      if q !in closes {
        assert Queue(entities, q, false) == [];
      }
    }
    forall q | 0 <= q <= |text| && q !in ordered
      ensures marks[q] == ""
    {
      assert q !in sortedOpens && q !in sortedCloses;
    }
    forall i | 0 <= i < |ordered|
      ensures 0 <= ordered[i] <= |text|
    {
      var q := ordered[i];
      assert q in ordered;
      assert q in opens || q in closes;
      assert Queue(entities, q, true) != [] || Queue(entities, q, false) != [];
      MarksInText(text, entities, q);
    }
    out := Emit(text, ordered, sortedOpens, sortedCloses, marks);
  }
}
