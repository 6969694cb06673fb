/**
 Finding the job postings of a page's JSON-LD documents (crawler/src/crawl.rs,
 `collect_job_postings`): a walk through arrays and the "@graph" member of
 objects. It is specified by paths: where a posting stands in its document.
 */
module JobPostings {
  import opened Wrappers

  datatype Json =
    | Null | Bool(value: bool) | Number(digits: string) | Text(text: string)
    | Array(items: seq<Json>) | Object(fields: Fields)

  type Fields = map<string, Json>

  // ---------- which objects are postings ----------

  function AsciiLower(c: char): char {
    if 'A' <= c <= 'Z' then (c as int + 32) as char else c
  }

  predicate EqualIgnoringAsciiCase(x: string, y: string) {
    |x| == |y| && forall i :: 0 <= i < |x| ==> AsciiLower(x[i]) == AsciiLower(y[i])
  }

  predicate IsTypeName(v: Json) {
    v.Text? && EqualIgnoringAsciiCase(v.text, "JobPosting")
  }

  predicate IsJobPosting(o: Fields) {
    "@type" in o && (IsTypeName(o["@type"]) || (o["@type"].Array? && exists v :: v in o["@type"].items && IsTypeName(v)))
  }

  // ---------- the walk ----------

  /** The object itself, if it is a posting. */
  function Own(o: Fields): seq<Fields> {
    if IsJobPosting(o) then [o] else []
  }

  function Collected(v: Json): seq<Fields>
    decreases v, 1
  {
    match v
    case Array(items) => CollectedAll(items)
    case Object(o) => if "@graph" in o then Own(o) + Collected(o["@graph"]) else Own(o)
    case _ => []
  }

  function CollectedAll(items: seq<Json>): seq<Fields>
    decreases items, 0
  {
    if items == [] then [] else CollectedAll(items[..|items| - 1]) + Collected(items[|items| - 1])
  }

  lemma CollectedUpTo(items: seq<Json>, i: nat)
    requires i < |items|
    ensures CollectedAll(items[..i + 1]) == CollectedAll(items[..i]) + Collected(items[i])
  {
    assert items[..i + 1][..i] == items[..i];
  }

  lemma JoinsOn(a: seq<Fields>, b: seq<Fields>, c: seq<Fields>)
    ensures (a + b) + c == a + (b + c)
  {
  }

  method CollectJobPostings(v: Json, postings: seq<Fields>) returns (after: seq<Fields>)
    ensures after == postings + Collected(v)
    decreases v, 1
  {
    match v
    case Array(items) =>
      after := CollectFromArray(items, postings);
    case Object(o) =>
      after := postings;
      if IsJobPosting(o) {
        after := after + [o];
      }
      assert after == postings + Own(o);
      if "@graph" in o {
        JoinsOn(postings, Own(o), Collected(o["@graph"]));
        after := CollectJobPostings(o["@graph"], after);
      }
    case _ =>
      after := postings;
  }

  method CollectFromArray(items: seq<Json>, postings: seq<Fields>) returns (after: seq<Fields>)
    ensures after == postings + CollectedAll(items)
    decreases items, 0
  {
    after := postings;
    for i := 0 to |items|
      invariant after == postings + CollectedAll(items[..i])
    {
      CollectedUpTo(items, i);
      JoinsOn(postings, CollectedAll(items[..i]), Collected(items[i]));
      after := CollectJobPostings(items[i], after);
    }
    assert items[..|items|] == items;
  }

  // ---------- where a posting stands ----------

  /** One step down: to an element of an array, or to the graph of an object. */
  datatype Edge = Item(i: nat) | Graph

  function At(v: Json, path: seq<Edge>): Option<Json> {
    if path == [] then Some(v)
    else
      match path[0]
      case Item(i) => if v.Array? && i < |v.items| then At(v.items[i], path[1..]) else None
      case Graph => if v.Object? && "@graph" in v.fields then At(v.fields["@graph"], path[1..]) else None
  }

  predicate PostingAt(v: Json, path: seq<Edge>, o: Fields) {
    At(v, path) == Some(Object(o)) && IsJobPosting(o)
  }

  /** Document order: an object before what is in its graph, and elements in turn. */
  predicate Before(p: seq<Edge>, q: seq<Edge>) {
    q != [] && (p == [] || (p[0].Item? && q[0].Item? && p[0].i < q[0].i) || (p[0] == q[0] && Before(p[1..], q[1..])))
  }

  predicate Increasing(paths: seq<seq<Edge>>) {
    forall i, j :: 0 <= i < j < |paths| ==> Before(paths[i], paths[j])
  }

  predicate Standing(v: Json, paths: seq<seq<Edge>>, found: seq<Fields>) {
    |paths| == |found| && forall i :: 0 <= i < |paths| ==> PostingAt(v, paths[i], found[i])
  }

  ghost predicate Complete(v: Json, paths: seq<seq<Edge>>) {
    forall path, o :: PostingAt(v, path, o) ==> path in paths
  }

  ghost predicate Places(v: Json, paths: seq<seq<Edge>>, found: seq<Fields>) {
    Standing(v, paths, found) && Increasing(paths) && Complete(v, paths)
  }

  function Under(e: Edge, paths: seq<seq<Edge>>): seq<seq<Edge>> {
    seq(|paths|, i requires 0 <= i < |paths| => [e] + paths[i])
  }

  lemma BeforeUnder(e: Edge, p: seq<Edge>, q: seq<Edge>)
    ensures Before([e] + p, [e] + q) <==> Before(p, q)
  {
    assert ([e] + p)[1..] == p && ([e] + q)[1..] == q;
  }

  lemma AtUnder(v: Json, e: Edge, path: seq<Edge>)
    ensures At(v, [e] + path) == (var one := At(v, [e]); if one.Some? then At(one.value, path) else None)
  {
    assert ([e] + path)[1..] == path && [e][1..] == [];
  }

  lemma IncreasingUnder(e: Edge, paths: seq<seq<Edge>>)
    requires Increasing(paths)
    ensures Increasing(Under(e, paths))
  {
    forall i, j | 0 <= i < j < |paths| ensures Before(Under(e, paths)[i], Under(e, paths)[j]) {
      BeforeUnder(e, paths[i], paths[j]);
    }
  }

  /** One step down, the postings of `v` are those of what `e` leads to. */
  lemma PostingUnder(v: Json, e: Edge, path: seq<Edge>, o: Fields)
    ensures PostingAt(v, [e] + path, o) <==> At(v, [e]).Some? && PostingAt(At(v, [e]).value, path, o)
  {
    AtUnder(v, e, path);
  }

  lemma StandingUnder(v: Json, e: Edge, paths: seq<seq<Edge>>, found: seq<Fields>)
    requires At(v, [e]).Some? && Standing(At(v, [e]).value, paths, found)
    ensures Standing(v, Under(e, paths), found)
  {
    forall i | 0 <= i < |paths| ensures PostingAt(v, Under(e, paths)[i], found[i]) {
      PostingUnder(v, e, paths[i], found[i]);
    }
  }

  lemma CompleteUnder(v: Json, e: Edge, paths: seq<seq<Edge>>, path: seq<Edge>, o: Fields)
    requires At(v, [e]).Some? && Complete(At(v, [e]).value, paths) && PostingAt(v, [e] + path, o)
    ensures [e] + path in Under(e, paths)
  {
    PostingUnder(v, e, path, o);
    var k :| 0 <= k < |paths| && paths[k] == path;
    assert Under(e, paths)[k] == [e] + path;
  }

  /** The places of an object: its own, and those in its graph. */
  function ObjectPlaces(o: Fields, inner: seq<seq<Edge>>): seq<seq<Edge>> {
    (if IsJobPosting(o) then [[]] else []) + Under(Graph, inner)
  }

  lemma GraphOf(o: Fields)
    ensures At(Object(o), [Graph]) == if "@graph" in o then Some(o["@graph"]) else None
  {
    assert [Graph][1..] == [];
  }

  lemma ObjectStanding(o: Fields, inner: seq<seq<Edge>>)
    requires if "@graph" in o then Standing(o["@graph"], inner, Collected(o["@graph"])) else inner == []
    ensures Standing(Object(o), ObjectPlaces(o, inner), Collected(Object(o)))
  {
    GraphOf(o);
    if "@graph" in o { StandingUnder(Object(o), Graph, inner, Collected(o["@graph"])); }
  }

  lemma ObjectIncreasing(o: Fields, inner: seq<seq<Edge>>)
    requires Increasing(inner)
    ensures Increasing(ObjectPlaces(o, inner))
  {
    IncreasingUnder(Graph, inner);
  }

  lemma ObjectComplete(o: Fields, inner: seq<seq<Edge>>)
    requires "@graph" in o ==> Complete(o["@graph"], inner)
    ensures Complete(Object(o), ObjectPlaces(o, inner))
  {
    forall path: seq<Edge>, p: Fields | PostingAt(Object(o), path, p) ensures path in ObjectPlaces(o, inner) {
      if path != [] {
        GraphOf(o);
        assert path == [Graph] + path[1..];
        CompleteUnder(Object(o), Graph, inner, path[1..], p);
      }
    }
  }

  /** The places of an array that grows by one element. */
  function ArrayPlaces(n: nat, before: seq<seq<Edge>>, inner: seq<seq<Edge>>): seq<seq<Edge>> {
    before + Under(Item(n), inner)
  }

  lemma ItemOf(items: seq<Json>, i: nat)
    ensures At(Array(items), [Item(i)]) == if i < |items| then Some(items[i]) else None
  {
    assert [Item(i)][1..] == [];
  }

  /** The elements an array already had keep their postings. */
  lemma PostingInFront(front: seq<Json>, last: Json, path: seq<Edge>, o: Fields)
    ensures PostingAt(Array(front), path, o) <==>
              PostingAt(Array(front + [last]), path, o) && path != [] && path[0].Item? && path[0].i < |front|
  {
    if path != [] && path[0].Item? && path[0].i < |front| {
      assert (front + [last])[path[0].i] == front[path[0].i];
    }
  }

  lemma StandingJoins(v: Json, before: seq<seq<Edge>>, inner: seq<seq<Edge>>, found: seq<Fields>, more: seq<Fields>)
    requires Standing(v, before, found) && Standing(v, inner, more)
    ensures Standing(v, before + inner, found + more)
  {
  }

  lemma FrontStanding(front: seq<Json>, last: Json, before: seq<seq<Edge>>, found: seq<Fields>)
    requires Standing(Array(front), before, found)
    ensures Standing(Array(front + [last]), before, found)
  {
    forall i | 0 <= i < |before| ensures PostingAt(Array(front + [last]), before[i], found[i]) {
      PostingInFront(front, last, before[i], found[i]);
    }
  }

  lemma ArrayStanding(front: seq<Json>, last: Json, before: seq<seq<Edge>>, inner: seq<seq<Edge>>)
    requires Standing(Array(front), before, CollectedAll(front)) && Standing(last, inner, Collected(last))
    ensures Standing(Array(front + [last]), ArrayPlaces(|front|, before, inner), CollectedAll(front + [last]))
  {
    ItemOf(front + [last], |front|);
    FrontStanding(front, last, before, CollectedAll(front));
    StandingUnder(Array(front + [last]), Item(|front|), inner, Collected(last));
    StandingJoins(Array(front + [last]), before, Under(Item(|front|), inner), CollectedAll(front), Collected(last));
    CollectedMore(front, last);
  }

  lemma CollectedMore(front: seq<Json>, last: Json)
    ensures CollectedAll(front + [last]) == CollectedAll(front) + Collected(last)
  {
    assert (front + [last])[..|front|] == front;
  }

  lemma IncreasingJoins(before: seq<seq<Edge>>, after: seq<seq<Edge>>)
    requires Increasing(before) && Increasing(after)
    requires forall i, j :: 0 <= i < |before| && 0 <= j < |after| ==> Before(before[i], after[j])
    ensures Increasing(before + after)
  {
    var all := before + after;
    forall i, j | 0 <= i < j < |all| ensures Before(all[i], all[j]) {
      if i < |before| && j >= |before| {
        assert all[i] == before[i] && all[j] == after[j - |before|];
      }
    }
  }

  lemma ArrayIncreasing(front: seq<Json>, before: seq<seq<Edge>>, inner: seq<seq<Edge>>)
    requires Standing(Array(front), before, CollectedAll(front)) && Increasing(before) && Increasing(inner)
    ensures Increasing(ArrayPlaces(|front|, before, inner))
  {
    var after := Under(Item(|front|), inner);
    IncreasingUnder(Item(|front|), inner);
    forall i, j | 0 <= i < |before| && 0 <= j < |after| ensures Before(before[i], after[j]) {
      PostingInFront(front, Null, before[i], CollectedAll(front)[i]);
    }
    IncreasingJoins(before, after);
  }

  lemma ArrayComplete(front: seq<Json>, last: Json, before: seq<seq<Edge>>, inner: seq<seq<Edge>>)
    requires Complete(Array(front), before) && Complete(last, inner)
    ensures Complete(Array(front + [last]), ArrayPlaces(|front|, before, inner))
  {
    forall path: seq<Edge>, o: Fields | PostingAt(Array(front + [last]), path, o) ensures path in ArrayPlaces(|front|, before, inner) {
      ItemOf(front + [last], |front|);
      PostingInFront(front, last, path, o);
      assert path == [path[0]] + path[1..];
      if !PostingAt(Array(front), path, o) {
        assert path[0] == Item(|front|);
        CompleteUnder(Array(front + [last]), Item(|front|), inner, path[1..], o);
      }
    }
  }

  lemma {:induction false} PlacesOf(v: Json) returns (paths: seq<seq<Edge>>)
    ensures Places(v, paths, Collected(v))
    decreases v, 1
  {
    match v
    case Array(items) =>
      paths := PlacesOfAll(items);
    case Object(o) =>
      var inner := [];
      if "@graph" in o { inner := PlacesOf(o["@graph"]); }
      ObjectStanding(o, inner);
      ObjectIncreasing(o, inner);
      ObjectComplete(o, inner);
      paths := ObjectPlaces(o, inner);
    case _ =>
      paths := [];
      forall path: seq<Edge>, o: Fields ensures !PostingAt(v, path, o) { }
  }

  lemma {:induction false} PlacesOfAll(items: seq<Json>) returns (paths: seq<seq<Edge>>)
    ensures Places(Array(items), paths, CollectedAll(items))
    decreases items, 0
  {
    if items == [] {
      paths := [];
      forall path: seq<Edge>, o: Fields ensures !PostingAt(Array(items), path, o) { }
    } else {
      var front, last := items[..|items| - 1], items[|items| - 1];
      var before := PlacesOfAll(front);
      var inner := PlacesOf(last);
      ArrayStanding(front, last, before, inner);
      ArrayIncreasing(front, before, inner);
      ArrayComplete(front, last, before, inner);
      assert front + [last] == items;
      paths := ArrayPlaces(|front|, before, inner);
    }
  }

  /**
   The walk finds the postings at all places that arrays and graphs lead to, and
   no others, each place once and in document order.
   */
  lemma CollectsEveryPosting(v: Json)
    ensures exists paths :: Places(v, paths, Collected(v))
    ensures forall o :: o in Collected(v) <==> exists path :: PostingAt(v, path, o)
  {
    var paths := PlacesOf(v);
    forall o ensures o in Collected(v) <==> exists path :: PostingAt(v, path, o) {
      if o in Collected(v) {
        var i :| 0 <= i < |paths| && Collected(v)[i] == o;
        assert PostingAt(v, paths[i], o);
      }
      if path :| PostingAt(v, path, o) {
        var i :| 0 <= i < |paths| && paths[i] == path;
        assert PostingAt(v, path, Collected(v)[i]);
      }
    }
  }
}
