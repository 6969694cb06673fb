/** The JSON-LD script scanner (crawler/src/crawl.rs, `json_ld_script_bodies`). */
module ScriptScanner {
  import opened Wrappers

  /** Text as code points. */
  type Text = seq<nat>

  const OPEN_TAG: Text := [60, 115, 99, 114, 105, 112, 116] // <script
  const CLOSE_TAG: Text := [60, 47, 115, 99, 114, 105, 112, 116] // </script
  const JSON_LD: Text := [97, 112, 112, 108, 105, 99, 97, 116, 105, 111, 110, 47, 108, 100, 43, 106, 115, 111, 110] // application/ld+json
  const TAG_END: nat := 62 // >

  function LowerChar(c: nat): nat {
    if 65 <= c <= 90 then c + 32 else c
  }

  /** `to_ascii_lowercase`: every other character stays where it is. */
  function Lower(s: Text): (r: Text)
    ensures |r| == |s|
  {
    seq(|s|, i requires 0 <= i < |s| => LowerChar(s[i]))
  }

  predicate Same(s: Text, p: Text, i: nat, k: nat)
    requires i + |p| <= |s| && k < |p|
  {
    s[i + k] == p[k]
  }

  predicate At(s: Text, p: Text, i: nat) {
    i + |p| <= |s| && forall k {:trigger Same(s, p, i, k)} :: 0 <= k < |p| ==> Same(s, p, i, k)
  }

  predicate IsFirst(s: Text, p: Text, from: nat, i: nat) {
    from <= i && At(s, p, i) && forall j :: from <= j < i ==> !At(s, p, j)
  }

  /** `str::find` on what follows `from`: the first place where `p` occurs. */
  function FindFrom(s: Text, p: Text, from: nat): Option<nat> {
    if exists i: nat :: i <= |s| && IsFirst(s, p, from, i) then
      var first: nat :| first <= |s| && IsFirst(s, p, from, first);
      Some(first)
    else None
  }

  /** It finds nothing only where there is nothing. */
  lemma {:induction false} FindsWhatOccurs(s: Text, p: Text, from: nat, i: nat)
    requires from <= i && At(s, p, i)
    ensures FindFrom(s, p, from).Some? && FindFrom(s, p, from).value <= i
    decreases i - from
  {
    if At(s, p, from) {
      assert IsFirst(s, p, from, from);
    } else {
      FindsWhatOccurs(s, p, from + 1, i);
      assert IsFirst(s, p, from, FindFrom(s, p, from + 1).value);
    }
  }

  /** `contains` on the slice between two places. */
  predicate OccursIn(s: Text, p: Text, from: nat, to: nat) {
    var first := FindFrom(s, p, from);
    first.Some? && first.value + |p| <= to
  }

  /** White_Space of the Unicode Character Database. */
  predicate Space(c: nat) {
    || 9 <= c <= 13 || c == 32 || c == 0x85 || c == 0xA0 || c == 0x1680 || 0x2000 <= c <= 0x200A
    || c == 0x2028 || c == 0x2029 || c == 0x202F || c == 0x205F || c == 0x3000
  }

  function FirstKept(s: Text, i: nat): (r: nat)
    requires i <= |s|
    ensures i <= r <= |s|
    decreases |s| - i
  {
    if i < |s| && Space(s[i]) then FirstKept(s, i + 1) else i
  }

  function LastKept(s: Text, from: nat, i: nat): (r: nat)
    requires from <= i <= |s|
    ensures from <= r <= i
    decreases i
  {
    if from < i && Space(s[i - 1]) then LastKept(s, from, i - 1) else i
  }

  /** `str::trim`. */
  function Trim(s: Text): Text {
    s[FirstKept(s, 0)..LastKept(s, FirstKept(s, 0), |s|)]
  }

  lemma {:induction false} FirstKeptIs(s: Text, i: nat)
    requires i <= |s|
    ensures var f := FirstKept(s, i);
            (forall k :: i <= k < f ==> Space(s[k])) && (f < |s| ==> !Space(s[f]))
    decreases |s| - i
  {
    if i < |s| && Space(s[i]) { FirstKeptIs(s, i + 1); }
  }

  lemma {:induction false} LastKeptIs(s: Text, from: nat, i: nat)
    requires from <= i <= |s|
    ensures var l := LastKept(s, from, i);
            (forall k :: l <= k < i ==> Space(s[k])) && (from < l ==> !Space(s[l - 1]))
    decreases i
  {
    if from < i && Space(s[i - 1]) { LastKeptIs(s, from, i - 1); }
  }

  /** Only white space goes, and all of it at either end. */
  lemma TrimDropsOuterSpace(s: Text) returns (before: nat, after: nat)
    ensures before <= after <= |s| && Trim(s) == s[before..after]
    ensures forall k :: 0 <= k < before || after <= k < |s| ==> Space(s[k])
    ensures before < after ==> !Space(s[before]) && !Space(s[after - 1])
  {
    FirstKeptIs(s, 0);
    LastKeptIs(s, FirstKept(s, 0), |s|);
    before, after := FirstKept(s, 0), LastKept(s, FirstKept(s, 0), |s|);
  }

  // ---------- the scanner ----------

  datatype Found = NoTag | Body(start: nat, end: nat) | NoBody(after: nat)

  /** A place further on, within the page. */
  predicate Ahead(f: Found, cursor: nat, size: nat) {
    match f
    case NoTag => true
    case Body(start, end) => cursor < start <= end && end + 8 <= size
    case NoBody(after) => cursor < after <= size
  }

  /** What the first script tag from a cursor on is good for. */
  function NextTag(lower: Text, cursor: nat): (r: Found)
    requires cursor <= |lower|
    ensures Ahead(r, cursor, |lower|)
  {
    var start := FindFrom(lower, OPEN_TAG, cursor);
    if start.None? then NoTag
    else
      var tagEnd := FindFrom(lower, [TAG_END], start.value);
      if tagEnd.None? then NoTag
      else
        var after := tagEnd.value + 1;
        var bodyEnd := FindFrom(lower, CLOSE_TAG, after);
        if OccursIn(lower, JSON_LD, start.value, after) && bodyEnd.Some? then Body(after, bodyEnd.value) else NoBody(after)
  }

  /** What each cursor would find. */
  function Tags(lower: Text): (tags: seq<Found>)
    ensures |tags| == |lower| + 1 && Advance(tags)
  {
    seq(|lower| + 1, c requires 0 <= c <= |lower| => NextTag(lower, c))
  }

  predicate Advance(tags: seq<Found>) {
    forall c :: 0 <= c < |tags| ==> Ahead(tags[c], c, |tags| - 1)
  }

  /** What the scanner returns, from a cursor on, after the bodies found so far. */
  function Bodies(bodies: seq<Text>, html: Text, tags: seq<Found>, cursor: nat): seq<Text>
    requires |tags| == |html| + 1 && cursor <= |html| && Advance(tags)
    decreases |html| - cursor
  {
    match tags[cursor]
    case NoTag => bodies
    case Body(start, end) => Bodies(bodies + [Trim(html[start..end])], html, tags, end + 8)
    case NoBody(after) => Bodies(bodies, html, tags, after)
  }

  /** The cursor strictly increases, on any input. */
  method ScanBodies(html: Text, lower: Text, ghost tags: seq<Found>) returns (bodies: seq<Text>)
    requires |html| == |lower| && |tags| == |lower| + 1 && Advance(tags)
    requires forall c {:trigger NextTag(lower, c)} :: 0 <= c <= |lower| ==> tags[c] == NextTag(lower, c)
    ensures bodies == Bodies([], html, tags, 0)
  {
    bodies := [];
    var cursor := 0;
    while true
      invariant cursor <= |html| && Bodies(bodies, html, tags, cursor) == Bodies([], html, tags, 0)
      decreases |html| - cursor
    {
      ghost var next := NextTag(lower, cursor);
      var start := FindFrom(lower, OPEN_TAG, cursor);
      if start.None? {
        break;
      }
      var tagEnd := FindFrom(lower, [TAG_END], start.value);
      if tagEnd.None? {
        break;
      }
      if OccursIn(lower, JSON_LD, start.value, tagEnd.value + 1) {
        var bodyStart := tagEnd.value + 1;
        var bodyEnd := FindFrom(lower, CLOSE_TAG, bodyStart);
        if bodyEnd.Some? {
          bodies := bodies + [Trim(html[bodyStart..bodyEnd.value])];
          cursor := bodyEnd.value + 8;
          continue;
        }
      }
      cursor := tagEnd.value + 1;
    }
  }

  method JsonLdScriptBodies(html: Text) returns (bodies: seq<Text>)
    ensures bodies == Bodies([], html, Tags(Lower(html)), 0)
  {
    var lower := Lower(html);
    bodies := ScanBodies(html, lower, Tags(lower));
  }

  // ---------- documents ----------

  /**
   A script element and the text up to the next one. `tag` is its start tag
   without the final `>`. A JSON-LD element has a body and a closing tag; of any
   other element only the start tag counts.
   */
  datatype Item =
    | JsonLd(tag: Text, body: Text, close: Text, text: Text)
    | Other(tag: Text, text: Text)

  /** No occurrence starts in the text, whatever the case of its letters. */
  predicate Lacks(s: Text, p: Text) {
    forall i :: 0 <= i < |s| ==> !At(Lower(s), p, i)
  }

  /** Tags in any case, up to the first `>`; no script tag in a text, no closing tag in a body. */
  predicate ItemOk(item: Item) {
    && At(Lower(item.tag), OPEN_TAG, 0) && TAG_END !in item.tag && Lacks(item.text, OPEN_TAG)
    && (item.JsonLd? <==> OccursIn(Lower(item.tag) + [TAG_END], JSON_LD, 0, |item.tag| + 1))
    && (item.JsonLd? ==> Lacks(item.body, CLOSE_TAG) && Lower(item.close) == CLOSE_TAG)
  }

  predicate AllOk(items: seq<Item>) {
    items == [] || (ItemOk(items[0]) && AllOk(items[1..]))
  }

  function Element(item: Item): Text {
    if item.JsonLd? then item.tag + [TAG_END] + item.body + item.close else item.tag + [TAG_END]
  }

  function Page(text: Text, items: seq<Item>): Text
    decreases items
  {
    if items == [] then text else text + Element(items[0]) + Page(items[0].text, items[1..])
  }

  function Expected(bodies: seq<Text>, items: seq<Item>): seq<Text>
    decreases items
  {
    if items == [] then bodies
    else Expected(if items[0].JsonLd? then bodies + [Trim(items[0].body)] else bodies, items[1..])
  }

  // ---------- the round trip ----------

  lemma NotBefore(s: Text, a: Text, p: Text, start: nat, i: nat)
    requires p != [] && p[0] !in p[1..] && start <= i < start + |a| && start + |a| < |s|
    requires At(s, a, start) && s[start + |a|] == p[0] && !At(a, p, i - start)
    ensures !At(s, p, i)
  {
    if i + |p| <= start + |a| {
      var k :| 0 <= k < |p| && !Same(a, p, i - start, k);
      assert Same(s, a, start, i - start + k);
      assert !Same(s, p, i, k);
    } else if i + |p| <= |s| {
      var k := start + |a| - i;
      assert p[k] == p[1..][k - 1];
      assert !Same(s, p, i, k);
    }
  }

  /** A pattern that cannot overlap itself is first found right where a stretch without it ends. */
  lemma FoundAtEnd(s: Text, a: Text, p: Text, start: nat)
    requires p != [] && p[0] !in p[1..] && At(s, a, start) && At(s, p, start + |a|)
    requires forall i :: 0 <= i < |a| ==> !At(a, p, i)
    ensures FindFrom(s, p, start) == Some(start + |a|)
  {
    assert Same(s, p, start + |a|, 0);
    forall i | start <= i < start + |a| ensures !At(s, p, i) {
      NotBefore(s, a, p, start, i);
    }
    assert IsFirst(s, p, start, start + |a|);
  }

  lemma NotFound(s: Text, a: Text, p: Text, start: nat)
    requires p != [] && |s| == start + |a| && At(s, a, start)
    requires forall i :: 0 <= i < |a| ==> !At(a, p, i)
    ensures FindFrom(s, p, start).None?
  {
    forall i | start <= i <= |s| ensures !At(s, p, i) {
      if i + |p| <= |s| {
        assert !At(a, p, i - start);
        var k :| 0 <= k < |p| && !Same(a, p, i - start, k);
        assert Same(s, a, start, i - start + k);
        assert !Same(s, p, i, k);
      }
    }
  }

  lemma OccursInSlice(s: Text, tag: Text, p: Text, start: nat)
    requires At(s, tag, start)
    ensures OccursIn(s, p, start, start + |tag|) <==> OccursIn(tag, p, 0, |tag|)
  {
    if OccursIn(s, p, start, start + |tag|) {
      var i := FindFrom(s, p, start).value;
      var j: nat := i - start;
      forall k | 0 <= k < |p| ensures Same(tag, p, j, k) {
        assert Same(s, tag, start, j + k) && Same(s, p, i, k);
      }
      FindsWhatOccurs(tag, p, 0, j);
    }
    if OccursIn(tag, p, 0, |tag|) {
      var i := FindFrom(tag, p, 0).value;
      var j := start + i;
      forall k | 0 <= k < |p| ensures Same(s, p, j, k) {
        assert Same(s, tag, start, i + k) && Same(tag, p, i, k);
      }
      FindsWhatOccurs(s, p, start, j);
    }
  }

  /** Where the tag after a text is found, and where it ends; all in lower case. */
  lemma FindsTag(s: Text, c: nat, text: Text, name: Text)
    requires At(s, text, c) && At(s, name, c + |text|) && At(s, [TAG_END], c + |text| + |name|)
    requires (forall i :: 0 <= i < |text| ==> !At(text, OPEN_TAG, i)) && At(name, OPEN_TAG, 0) && TAG_END !in name
    ensures FindFrom(s, OPEN_TAG, c) == Some(c + |text|)
    ensures FindFrom(s, [TAG_END], c + |text|) == Some(c + |text| + |name|)
  {
    var start := c + |text|;
    forall k | 0 <= k < 7 ensures Same(s, OPEN_TAG, start, k) {
      assert Same(name, OPEN_TAG, 0, k) && Same(s, name, start, k);
    }
    FoundAtEnd(s, text, OPEN_TAG, c);
    forall i | 0 <= i < |name| ensures !At(name, [TAG_END], i) {
      assert !Same(name, [TAG_END], i, 0);
    }
    FoundAtEnd(s, name, [TAG_END], start);
  }

  lemma FindsBody(s: Text, c: nat, text: Text, name: Text, body: Text)
    requires At(s, text, c) && At(s, name, c + |text|) && At(s, [TAG_END], c + |text| + |name|)
    requires (forall i :: 0 <= i < |text| ==> !At(text, OPEN_TAG, i)) && At(name, OPEN_TAG, 0) && TAG_END !in name
    requires At(s, name + [TAG_END], c + |text|) && OccursIn(name + [TAG_END], JSON_LD, 0, |name| + 1)
    requires At(s, body, c + |text| + |name| + 1) && At(s, CLOSE_TAG, c + |text| + |name| + 1 + |body|)
    requires forall i :: 0 <= i < |body| ==> !At(body, CLOSE_TAG, i)
    ensures NextTag(s, c) == Body(c + |text| + |name| + 1, c + |text| + |name| + 1 + |body|)
  {
    FindsTag(s, c, text, name);
    OccursInSlice(s, name + [TAG_END], JSON_LD, c + |text|);
    FoundAtEnd(s, body, CLOSE_TAG, c + |text| + |name| + 1);
  }

  lemma FindsOther(s: Text, c: nat, text: Text, name: Text)
    requires At(s, text, c) && At(s, name, c + |text|) && At(s, [TAG_END], c + |text| + |name|)
    requires (forall i :: 0 <= i < |text| ==> !At(text, OPEN_TAG, i)) && At(name, OPEN_TAG, 0) && TAG_END !in name
    requires At(s, name + [TAG_END], c + |text|) && !OccursIn(name + [TAG_END], JSON_LD, 0, |name| + 1)
    ensures NextTag(s, c) == NoBody(c + |text| + |name| + 1)
  {
    FindsTag(s, c, text, name);
    OccursInSlice(s, name + [TAG_END], JSON_LD, c + |text|);
  }

  lemma LowerPart(html: Text, a: Text, c: nat)
    requires At(html, a, c)
    ensures At(Lower(html), Lower(a), c)
  {
    forall k | 0 <= k < |a| ensures Same(Lower(html), Lower(a), c, k) {
      assert Same(html, a, c, k);
    }
  }

  /** Where the pieces of a text and an item are. */
  lemma ItemParts(text: Text, item: Item)
    ensures var page, n := text + Element(item), |text|;
            && At(page, text, 0) && At(page, item.tag, n) && At(page, [TAG_END], n + |item.tag|)
            && At(page, item.tag + [TAG_END], n)
  {
    var rest := if item.JsonLd? then item.body + item.close else [];
    assert Element(item) == item.tag + [TAG_END] + rest;
    PartsOf(text, item.tag, rest);
  }

  lemma PartsOf(text: Text, tag: Text, rest: Text)
    ensures var page, n := text + (tag + [TAG_END] + rest), |text|;
            && At(page, text, 0) && At(page, tag, n) && At(page, [TAG_END], n + |tag|) && At(page, tag + [TAG_END], n)
  {
    var page := text + (tag + [TAG_END] + rest);
    PieceIsAt(page, [], text, tag + [TAG_END] + rest);
    PieceIsAt(page, text, tag + [TAG_END], rest);
    PieceIsAt(page, text, tag, [TAG_END] + rest);
    PieceIsAt(page, text + tag, [TAG_END], rest);
  }

  lemma PieceIsAt(page: Text, before: Text, piece: Text, after: Text)
    requires page == before + piece + after
    ensures At(page, piece, |before|)
  {
    forall k | 0 <= k < |piece| ensures Same(page, piece, |before|, k) { }
  }

  lemma BodyParts(text: Text, item: Item)
    requires item.JsonLd?
    ensures var page, n := text + Element(item), |text| + |item.tag| + 1;
            At(page, item.body, n) && At(page, item.close, n + |item.body|)
  {
    var page, before := text + Element(item), text + item.tag + [TAG_END];
    PieceIsAt(page, before, item.body, item.close);
    PieceIsAt(page, before + item.body, item.close, []);
  }

  predicate Starts(html: Text, c: nat, text: Text, item: Item) {
    ItemOk(item) && Lacks(text, OPEN_TAG) && At(html, text + Element(item), c)
  }

  /** What the scanner finds where a text and an item begin. */
  lemma FindsOtherItem(html: Text, c: nat, text: Text, item: Item)
    requires Starts(html, c, text, item) && item.Other?
    ensures c <= |html| && NextTag(Lower(html), c) == NoBody(c + |text| + |item.tag| + 1)
  {
    StartParts(html, c, text, item);
    FindsOther(Lower(html), c, Lower(text), Lower(item.tag));
  }

  /** Where a JSON-LD element's body and closing tag are in the page. */
  lemma BodyPlaces(html: Text, c: nat, text: Text, item: Item)
    requires Starts(html, c, text, item) && item.JsonLd?
    ensures var start := c + |text| + |item.tag| + 1;
            && |item.close| == 8 && At(html, item.body, start) && At(Lower(html), Lower(item.body), start)
            && At(html, item.close, start + |item.body|) && At(Lower(html), CLOSE_TAG, start + |item.body|)
  {
    var page, n := text + Element(item), |text| + |item.tag| + 1;
    BodyParts(text, item);
    PartAt(html, page, c, item.body, n);
    PartAt(html, page, c, item.close, n + |item.body|);
  }

  lemma PlaceIsSlice(html: Text, part: Text, c: nat)
    requires At(html, part, c)
    ensures html[c..c + |part|] == part
  {
    forall k | 0 <= k < |part| ensures html[c..c + |part|][k] == part[k] {
      assert Same(html, part, c, k);
    }
  }

  lemma FindsJsonLdItem(html: Text, c: nat, text: Text, item: Item)
    requires Starts(html, c, text, item) && item.JsonLd?
    ensures var start := c + |text| + |item.tag| + 1;
            && |item.close| == 8 && start + |item.body| + 8 <= |html| && html[start..start + |item.body|] == item.body
            && NextTag(Lower(html), c) == Body(start, start + |item.body|)
  {
    StartParts(html, c, text, item);
    BodyPlaces(html, c, text, item);
    PlaceIsSlice(html, item.body, c + |text| + |item.tag| + 1);
    FindsBody(Lower(html), c, Lower(text), Lower(item.tag), Lower(item.body));
  }

  lemma StartParts(html: Text, c: nat, text: Text, item: Item)
    requires At(html, text + Element(item), c)
    ensures var s, name := Lower(html), Lower(item.tag);
            && At(s, Lower(text), c) && At(s, name, c + |text|) && At(s, [TAG_END], c + |text| + |name|)
            && At(s, name + [TAG_END], c + |text|)
  {
    ItemParts(text, item);
    PartIsAt(html, text + Element(item), c, text, 0);
    PartIsAt(html, text + Element(item), c, item.tag, |text|);
    TagEndIsAt(html, c, text, item);
    WholeTagIsAt(html, c, text, item);
  }

  lemma TagEndIsAt(html: Text, c: nat, text: Text, item: Item)
    requires At(html, text + Element(item), c)
    ensures At(Lower(html), [TAG_END], c + |text| + |item.tag|)
  {
    ItemParts(text, item);
    PartIsAt(html, text + Element(item), c, [TAG_END], |text| + |item.tag|);
    assert Lower([TAG_END]) == [TAG_END];
  }

  lemma WholeTagIsAt(html: Text, c: nat, text: Text, item: Item)
    requires At(html, text + Element(item), c)
    ensures At(Lower(html), Lower(item.tag) + [TAG_END], c + |text|)
  {
    ItemParts(text, item);
    PartIsAt(html, text + Element(item), c, item.tag + [TAG_END], |text|);
    LowerOfTag(item.tag);
  }

  lemma PartIsAt(html: Text, page: Text, c: nat, part: Text, offset: nat)
    requires At(html, page, c) && At(page, part, offset)
    ensures At(Lower(html), Lower(part), c + offset)
  {
    PartAt(html, page, c, part, offset);
  }

  lemma PartAt(html: Text, page: Text, c: nat, part: Text, offset: nat)
    requires At(html, page, c) && At(page, part, offset)
    ensures At(html, part, c + offset) && At(Lower(html), Lower(part), c + offset)
  {
    var place := c + offset;
    forall k | 0 <= k < |part| ensures Same(html, part, place, k) {
      assert Same(page, part, offset, k) && Same(html, page, c, offset + k);
    }
    LowerPart(html, part, c + offset);
  }

  lemma LowerOfTag(tag: Text)
    ensures Lower(tag + [TAG_END]) == Lower(tag) + [TAG_END]
  {
  }

  lemma PageStarts(html: Text, c: nat, text: Text, items: seq<Item>)
    requires c <= |html| && html[c..] == Page(text, items) && items != []
    ensures var next := c + |text| + |Element(items[0])|;
            At(html, text + Element(items[0]), c) && html[next..] == Page(items[0].text, items[1..])
  {
    var part := text + Element(items[0]);
    assert html[c..][|part|..] == html[c + |part|..];
    forall k | 0 <= k < |part| ensures Same(html, part, c, k) {
      assert html[c + k] == html[c..][k];
    }
  }

  lemma PageEnds(html: Text, c: nat, text: Text)
    requires c <= |html| && html[c..] == text && Lacks(text, OPEN_TAG)
    ensures NextTag(Lower(html), c) == NoTag
  {
    forall k | 0 <= k < |text| ensures Same(html, text, c, k) {
      assert html[c + k] == html[c..][k];
    }
    LowerPart(html, text, c);
    NotFound(Lower(html), Lower(text), OPEN_TAG, c);
  }

  predicate IsTable(tags: seq<Found>, html: Text) {
    && |tags| == |html| + 1 && Advance(tags)
    && forall i {:trigger NextTag(Lower(html), i)} :: 0 <= i <= |html| ==> tags[i] == NextTag(Lower(html), i)
  }

  /** One turn of the loop, told by what the cursor finds. */
  lemma BodiesOfBody(bodies: seq<Text>, html: Text, tags: seq<Found>, c: nat, start: nat, end: nat, body: Text)
    requires |tags| == |html| + 1 && Advance(tags) && c <= |html| && tags[c] == Body(start, end)
    requires start <= end && end + 8 <= |html| && html[start..end] == body
    ensures Bodies(bodies, html, tags, c) == Bodies(bodies + [Trim(body)], html, tags, end + 8)
  {
  }

  lemma BodiesOfOther(bodies: seq<Text>, html: Text, tags: seq<Found>, c: nat, after: nat)
    requires |tags| == |html| + 1 && Advance(tags) && c <= |html| && tags[c] == NoBody(after)
    ensures after <= |html| && Bodies(bodies, html, tags, c) == Bodies(bodies, html, tags, after)
  {
    assert Ahead(tags[c], c, |tags| - 1);
  }

  lemma JsonLdLength(text: Text, item: Item)
    requires item.JsonLd?
    ensures |text + Element(item)| == |text| + |item.tag| + 1 + |item.body| + |item.close|
  {
  }

  lemma StepOverJsonLd(bodies: seq<Text>, html: Text, tags: seq<Found>, c: nat, text: Text, item: Item)
    requires IsTable(tags, html) && Starts(html, c, text, item) && item.JsonLd?
    ensures var next := c + |text + Element(item)|;
            next <= |html| && Bodies(bodies, html, tags, c) == Bodies(bodies + [Trim(item.body)], html, tags, next)
  {
    FindsJsonLdItem(html, c, text, item);
    var start := c + |text| + |item.tag| + 1;
    JsonLdLength(text, item);
    BodiesOfBody(bodies, html, tags, c, start, start + |item.body|, item.body);
  }

  lemma StepOverOther(bodies: seq<Text>, html: Text, tags: seq<Found>, c: nat, text: Text, item: Item)
    requires IsTable(tags, html) && Starts(html, c, text, item) && item.Other?
    ensures var next := c + |text + Element(item)|;
            next <= |html| && Bodies(bodies, html, tags, c) == Bodies(bodies, html, tags, next)
  {
    FindsOtherItem(html, c, text, item);
    BodiesOfOther(bodies, html, tags, c, c + |text| + |item.tag| + 1);
  }

  /** The scanner's step over a text and an item. */
  lemma StepOver(bodies: seq<Text>, html: Text, tags: seq<Found>, c: nat, text: Text, item: Item)
    requires IsTable(tags, html) && Starts(html, c, text, item)
    ensures var next := c + |text + Element(item)|;
            && next <= |html|
            && Bodies(bodies, html, tags, c)
            == Bodies(if item.JsonLd? then bodies + [Trim(item.body)] else bodies, html, tags, next)
  {
    if item.JsonLd? {
      StepOverJsonLd(bodies, html, tags, c, text, item);
    } else {
      StepOverOther(bodies, html, tags, c, text, item);
    }
  }

  lemma {:induction false} RoundTripFrom(bodies: seq<Text>, html: Text, tags: seq<Found>, c: nat, text: Text, items: seq<Item>)
    requires IsTable(tags, html) && c <= |html| && html[c..] == Page(text, items)
    requires Lacks(text, OPEN_TAG) && AllOk(items)
    ensures Bodies(bodies, html, tags, c) == Expected(bodies, items)
    decreases |items|
  {
    if items == [] {
      PageEnds(html, c, text);
    } else {
      var item := items[0];
      PageStarts(html, c, text, items);
      assert Starts(html, c, text, item);
      StepOver(bodies, html, tags, c, text, item);
      RoundTripFrom(if item.JsonLd? then bodies + [Trim(item.body)] else bodies, html, tags, c + |text + Element(item)|, item.text, items[1..]);
    }
  }

  /** The scanner returns exactly the trimmed bodies of the JSON-LD elements, in order. */
  lemma {:induction false} RoundTrip(text: Text, items: seq<Item>)
    requires Lacks(text, OPEN_TAG) && AllOk(items)
    ensures Bodies([], Page(text, items), Tags(Lower(Page(text, items))), 0) == Expected([], items)
  {
    RoundTripFrom([], Page(text, items), Tags(Lower(Page(text, items))), 0, text, items);
  }
}
