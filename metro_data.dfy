/**
 * The station and line builder `processData`: it classifies Overpass
 * elements, collects the lines serving each stop node, builds one station per
 * distinct usable name, and keeps the ways that can be drawn as lines.
 */
module MetroData {
  import opened Wrappers
  import opened Strings
  import opened Seqs
  import Translit

  // ---------------------------------------------------------------------------
  // Data model
  // ---------------------------------------------------------------------------

  /** A member of a route relation: `{type, ref, role}`; `role` may be absent. */
  datatype Member = Member(mtype: string, ref: int, role: Option<string>)

  datatype Point = Point(lat: real, lon: real)

  /**
   * An Overpass element. Missing `tags`, `members` and `geometry` are given as
   * the empty map and sequence, which is what `|| {}` and `|| []` read them as.
   */
  datatype Element = Element(
    etype: string, id: int, tags: map<string, string>,
    lat: Option<real>, lon: Option<real>,
    members: seq<Member>, geometry: seq<Point>)

  /** An entry `{ref, colour}` of a node's line list. */
  datatype LineRef = LineRef(ref: string, colour: string)

  datatype Station = Station(
    name: string, nameEn: string, lat: real, lon: real,
    line: string, color: string, lineColors: seq<string>)

  datatype LineGeometry = LineGeometry(coords: seq<Point>, color: string)

  const DefaultColour := "#888888"

  /** The member roles that make a node a stop of the route. */
  const StopRoles: set<string> := {"stop", "stop_entry_only", "stop_exit_only", ""}

  // ---------------------------------------------------------------------------
  // Classification of the elements
  // ---------------------------------------------------------------------------

  predicate IsRelation(e: Element) { e.etype == "relation" }

  predicate IsWay(e: Element) { e.etype == "way" }

  predicate IsNode(e: Element) { e.etype == "node" }

  /** The ids of the `nodes` object in insertion order: each id where it first occurs. */
  function NodeIds(es: seq<Element>): seq<int>
  {
    if es == [] then []
    else
      var ids, e := NodeIds(es[..|es| - 1]), es[|es| - 1];
      if IsNode(e) && e.id !in ids then ids + [e.id] else ids
  }

  /** The `nodes` object: `nodes[element.id] = element`, so a later node wins. */
  function NodeTable(es: seq<Element>): map<int, Element>
  {
    if es == [] then map[]
    else
      var m, e := NodeTable(es[..|es| - 1]), es[|es| - 1];
      if IsNode(e) then m[e.id := e] else m
  }

  /** The ids listed in insertion order are exactly the keys of the node table. */
  lemma {:induction false} NodeIdsAreTableKeys(es: seq<Element>)
    ensures forall k :: k in NodeIds(es) <==> k in NodeTable(es)
  {
    if es != [] {
      NodeIdsAreTableKeys(es[..|es| - 1]);
    }
  }

  lemma {:induction false} NodeIdsDistinct(es: seq<Element>)
    ensures forall i, j :: 0 <= i < j < |NodeIds(es)| ==> NodeIds(es)[i] != NodeIds(es)[j]
  {
    if es != [] {
      NodeIdsDistinct(es[..|es| - 1]);
    }
  }

  /** `es[j]` is a node with id `k` and no later element is one. */
  predicate LastNodeWith(es: seq<Element>, j: int, k: int)
  {
    0 <= j < |es| && IsNode(es[j]) && es[j].id == k &&
    forall j' :: j < j' < |es| ==> !(IsNode(es[j']) && es[j'].id == k)
  }

  /** The table has an id as a key exactly when some node element has that id. */
  lemma {:induction false} NodeTableKeys(es: seq<Element>, k: int)
    ensures k in NodeTable(es) <==> exists j :: 0 <= j < |es| && IsNode(es[j]) && es[j].id == k
  {
    if es != [] {
      var init, e := es[..|es| - 1], es[|es| - 1];
      NodeTableKeys(init, k);
      if exists j :: 0 <= j < |es| && IsNode(es[j]) && es[j].id == k {
        var j :| 0 <= j < |es| && IsNode(es[j]) && es[j].id == k;
        assert j == |es| - 1 || init[j] == es[j];
      }
      if exists j :: 0 <= j < |init| && IsNode(init[j]) && init[j].id == k {
        var j :| 0 <= j < |init| && IsNode(init[j]) && init[j].id == k;
        assert es[j] == init[j];
      }
    }
  }

  /** The table keeps, for each id, the last node element with that id. */
  lemma {:induction false} NodeTableKeepsLast(es: seq<Element>, k: int)
    ensures k in NodeTable(es) ==> exists j :: LastNodeWith(es, j, k) && NodeTable(es)[k] == es[j]
  {
    if es != [] {
      var init, e := es[..|es| - 1], es[|es| - 1];
      NodeTableKeepsLast(init, k);
      if IsNode(e) && e.id == k {
        assert LastNodeWith(es, |es| - 1, k);
      } else if k in NodeTable(init) {
        var j :| LastNodeWith(init, j, k) && NodeTable(init)[k] == init[j];
        forall j' | j < j' < |es| ensures !(IsNode(es[j']) && es[j'].id == k) {
          if j' < |init| {
            assert es[j'] == init[j'];
          }
        }
        assert LastNodeWith(es, j, k);
      }
    }
  }

  /** The first loop of `processData`: relations, the `nodes` object and ways. */
  method Classify(elements: seq<Element>)
    returns (routes: seq<Element>, nodes: map<int, Element>, nodeOrder: seq<int>, ways: seq<Element>)
    ensures routes == Filter(elements, IsRelation)
    ensures ways == Filter(elements, IsWay)
    ensures nodes == NodeTable(elements) && nodeOrder == NodeIds(elements)
  {
    routes, nodes, nodeOrder, ways := [], map[], [], [];
    for i := 0 to |elements|
      invariant routes == Filter(elements[..i], IsRelation)
      invariant ways == Filter(elements[..i], IsWay)
      invariant nodes == NodeTable(elements[..i]) && nodeOrder == NodeIds(elements[..i])
    {
      var element := elements[i];
      assert elements[..i + 1][..i] == elements[..i];
      NodeIdsAreTableKeys(elements[..i]);
      if element.etype == "relation" {
        routes := routes + [element];
      } else if element.etype == "node" {
        if element.id !in nodes {
          nodeOrder := nodeOrder + [element.id];
        }
        nodes := nodes[element.id := element];
      } else if element.etype == "way" {
        ways := ways + [element];
      }
    }
    assert elements[..|elements|] == elements;
  }

  // ---------------------------------------------------------------------------
  // The lines serving each node
  // ---------------------------------------------------------------------------

  /** `member.role || ''`: an absent role reads as the empty role. */
  function RoleOf(m: Member): string
  {
    match m.role
    case Some(r) => r
    case None => ""
  }

  /** A member that makes its node a stop of the route. */
  predicate Qualifies(m: Member)
  {
    m.mtype == "node" && RoleOf(m) in StopRoles
  }

  /** The `{ref, colour}` a route contributes, with the defaults `?` and `#888888`. */
  function RouteLine(tags: map<string, string>): (l: LineRef)
    ensures l.ref != "" && l.colour != ""
    ensures l.ref == (if "ref" in tags && tags["ref"] != "" then tags["ref"] else "?")
    ensures l.colour == (if "colour" in tags && tags["colour"] != "" then tags["colour"] else DefaultColour)
  {
    LineRef(Or(Tag(tags, "ref"), "?"), Or(Tag(tags, "colour"), DefaultColour))
  }

  /** One qualifying member: the line `line` serves the node `node`. */
  datatype Contribution = Contribution(node: int, line: LineRef)

  function MemberContribs(ms: seq<Member>, line: LineRef): seq<Contribution>
  {
    if ms == [] then []
    else
      var m := ms[|ms| - 1];
      MemberContribs(ms[..|ms| - 1], line) + (if Qualifies(m) then [Contribution(m.ref, line)] else [])
  }

  /** Every qualifying member of every route, in the order the loops visit them. */
  function Contributions(routes: seq<Element>): seq<Contribution>
  {
    if routes == [] then []
    else
      var r := routes[|routes| - 1];
      Contributions(routes[..|routes| - 1]) + MemberContribs(r.members, RouteLine(r.tags))
  }

  /** `ls.some(l => l.ref === ref)` */
  predicate HasRef(ls: seq<LineRef>, ref: string)
  {
    exists l :: l in ls && l.ref == ref
  }

  /** One step of the inner loop: append the line unless its ref is already listed. */
  function AddLine(info: map<int, seq<LineRef>>, c: Contribution): map<int, seq<LineRef>>
  {
    if c.node !in info then info[c.node := [c.line]]
    else if HasRef(info[c.node], c.line.ref) then info
    else info[c.node := info[c.node] + [c.line]]
  }

  /** The `lineInfo` object built from the contributions in order. */
  function LineInfo(cs: seq<Contribution>): map<int, seq<LineRef>>
  {
    if cs == [] then map[] else AddLine(LineInfo(cs[..|cs| - 1]), cs[|cs| - 1])
  }

  predicate DistinctRefs(ls: seq<LineRef>)
  {
    forall i, j :: 0 <= i < j < |ls| ==> ls[i].ref != ls[j].ref
  }

  /** Route `i`'s member `j` qualifies and yields the contribution `c`. */
  predicate ContributedBy(routes: seq<Element>, i: int, j: int, c: Contribution)
  {
    0 <= i < |routes| && 0 <= j < |routes[i].members| &&
    Qualifies(routes[i].members[j]) &&
    c == Contribution(routes[i].members[j].ref, RouteLine(routes[i].tags))
  }

  lemma {:induction false} MemberContribsExact(ms: seq<Member>, line: LineRef, c: Contribution)
    ensures c in MemberContribs(ms, line) <==>
      exists j :: 0 <= j < |ms| && Qualifies(ms[j]) && c == Contribution(ms[j].ref, line)
  {
    if ms != [] {
      MemberContribsExact(ms[..|ms| - 1], line, c);
      if exists j :: 0 <= j < |ms| && Qualifies(ms[j]) && c == Contribution(ms[j].ref, line) {
        var j :| 0 <= j < |ms| && Qualifies(ms[j]) && c == Contribution(ms[j].ref, line);
        if j < |ms| - 1 {
          assert ms[..|ms| - 1][j] == ms[j];
        }
      }
    }
  }

  /** Every qualifying member contributes. */
  lemma {:induction false} ContributionsComplete(routes: seq<Element>, i: int, j: int, c: Contribution)
    requires ContributedBy(routes, i, j, c)
    ensures c in Contributions(routes)
  {
    var init, r := routes[..|routes| - 1], routes[|routes| - 1];
    if i < |routes| - 1 {
      assert ContributedBy(init, i, j, c);
      ContributionsComplete(init, i, j, c);
    } else {
      MemberContribsExact(r.members, RouteLine(r.tags), c);
    }
  }

  /** Only qualifying members contribute. */
  lemma {:induction false} ContributionsSound(routes: seq<Element>, c: Contribution)
    requires c in Contributions(routes)
    ensures exists i, j :: ContributedBy(routes, i, j, c)
  {
    var init, r := routes[..|routes| - 1], routes[|routes| - 1];
    if c in Contributions(init) {
      ContributionsSound(init, c);
      var i, j :| ContributedBy(init, i, j, c);
      assert ContributedBy(routes, i, j, c);
    } else {
      MemberContribsExact(r.members, RouteLine(r.tags), c);
      var j :| 0 <= j < |r.members| && Qualifies(r.members[j]) && c == Contribution(r.members[j].ref, RouteLine(r.tags));
      assert ContributedBy(routes, |routes| - 1, j, c);
    }
  }

  /** Only node members with a stop role contribute, and each of them does. */
  lemma ContributionsExact(routes: seq<Element>, c: Contribution)
    ensures c in Contributions(routes) <==> exists i, j :: ContributedBy(routes, i, j, c)
  {
    if c in Contributions(routes) {
      ContributionsSound(routes, c);
    }
    if exists i, j :: ContributedBy(routes, i, j, c) {
      var i, j :| ContributedBy(routes, i, j, c);
      ContributionsComplete(routes, i, j, c);
    }
  }

  /** No node lists two lines with the same ref. */
  lemma {:induction false} LineInfoDistinctRefs(cs: seq<Contribution>)
    ensures forall k :: k in LineInfo(cs) ==> DistinctRefs(LineInfo(cs)[k])
  {
    if cs != [] {
      LineInfoDistinctRefs(cs[..|cs| - 1]);
    }
  }

  /** `cs[i]` is the first contribution of a line with ref `r` to node `k`. */
  predicate FirstWithRef(cs: seq<Contribution>, i: int, k: int, r: string)
  {
    0 <= i < |cs| && cs[i].node == k && cs[i].line.ref == r &&
    forall i' :: 0 <= i' < i ==> !(cs[i'].node == k && cs[i'].line.ref == r)
  }

  /**
   * A node is listed exactly when something contributes to it; it lists a ref
   * exactly when some contribution has that ref, and the entry it keeps is the
   * first such contribution, so the first route wins the colour.
   */
  lemma {:induction false} LineInfoExact(cs: seq<Contribution>, k: int, r: string)
    ensures k in LineInfo(cs) <==> exists i :: 0 <= i < |cs| && cs[i].node == k
    ensures (k in LineInfo(cs) && HasRef(LineInfo(cs)[k], r)) <==>
      exists i :: 0 <= i < |cs| && cs[i].node == k && cs[i].line.ref == r
    ensures forall l :: k in LineInfo(cs) && l in LineInfo(cs)[k] && l.ref == r ==>
      exists i :: FirstWithRef(cs, i, k, r) && cs[i].line == l
  {
    if cs != [] {
      var init, c := cs[..|cs| - 1], cs[|cs| - 1];
      LineInfoExact(init, k, r);
      forall i | 0 <= i < |init| ensures cs[i] == init[i] { }
      forall l | k in LineInfo(cs) && l in LineInfo(cs)[k] && l.ref == r
        ensures exists i :: FirstWithRef(cs, i, k, r) && cs[i].line == l
      {
        if k in LineInfo(init) && l in LineInfo(init)[k] {
          var i :| FirstWithRef(init, i, k, r) && init[i].line == l;
          assert FirstWithRef(cs, i, k, r);
        } else {
          assert c.node == k && c.line == l;
          assert FirstWithRef(cs, |cs| - 1, k, r);
        }
      }
    }
  }

  /** Every listed line carries a non-empty ref and colour. */
  lemma {:induction false} LineInfoNonEmptyFields(routes: seq<Element>)
    ensures forall k, l :: k in LineInfo(Contributions(routes)) && l in LineInfo(Contributions(routes))[k] ==>
      l.ref != "" && l.colour != ""
  {
    var cs := Contributions(routes);
    forall k, l | k in LineInfo(cs) && l in LineInfo(cs)[k] ensures l.ref != "" && l.colour != "" {
      LineInfoExact(cs, k, l.ref);
      var i :| FirstWithRef(cs, i, k, l.ref) && cs[i].line == l;
      assert cs[i] in cs;
      ContributionsExact(routes, cs[i]);
    }
  }

  /** The inner loop of the second loop: one route's members, all carrying `line`. */
  method AddRouteLines(lineInfo: map<int, seq<LineRef>>, members: seq<Member>, line: LineRef,
                       ghost before: seq<Contribution>)
    returns (info: map<int, seq<LineRef>>)
    requires lineInfo == LineInfo(before)
    ensures info == LineInfo(before + MemberContribs(members, line))
  {
    info := lineInfo;
    assert members[..0] == [] && before + [] == before;
    for j := 0 to |members|
      invariant info == LineInfo(before + MemberContribs(members[..j], line))
    {
      var member := members[j];
      assert members[..j + 1][..j] == members[..j];
      ghost var done := before + MemberContribs(members[..j], line);
      if member.mtype == "node" && RoleOf(member) in StopRoles {
        var nodeId := member.ref;
        ghost var prev := info;
        if nodeId !in info {
          info := info[nodeId := []];
          assert !HasRef(info[nodeId], line.ref) && info[nodeId] + [line] == [line];
        }
        if !HasRef(info[nodeId], line.ref) {
          info := info[nodeId := info[nodeId] + [line]];
        }
        assert info == AddLine(prev, Contribution(nodeId, line));
        assert done + [Contribution(nodeId, line)] == before + MemberContribs(members[..j + 1], line);
        assert (done + [Contribution(nodeId, line)])[..|done|] == done;
      } else {
        assert done == before + MemberContribs(members[..j + 1], line);
      }
    }
    assert members[..|members|] == members;
  }

  /** The second loop of `processData`, over the routes. */
  method BuildLineInfo(routes: seq<Element>) returns (lineInfo: map<int, seq<LineRef>>)
    ensures lineInfo == LineInfo(Contributions(routes))
  {
    lineInfo := map[];
    for i := 0 to |routes|
      invariant lineInfo == LineInfo(Contributions(routes[..i]))
    {
      var route := routes[i];
      var line := RouteLine(route.tags);
      assert routes[..i + 1][..i] == routes[..i];
      lineInfo := AddRouteLines(lineInfo, route.members, line, Contributions(routes[..i]));
    }
    assert routes[..|routes|] == routes;
  }

  // ---------------------------------------------------------------------------
  // The order of `Object.entries(nodes)`
  // ---------------------------------------------------------------------------

  /** Keys `0 <= k < 2^32 - 1` are array indices; an object lists them first, ascending. */
  const ArrayIndexLimit := 4294967295

  predicate IsArrayIndex(k: int) { 0 <= k < ArrayIndexLimit }

  predicate NotArrayIndex(k: int) { !IsArrayIndex(k) }

  predicate IntLe(a: int, b: int) { a <= b }

  /** The ids in insertion order `ids`, as `Object.entries` lists them. */
  function EntriesOrder(ids: seq<int>): (r: seq<int>)
    ensures multiset(r) == multiset(ids)
  {
    FilterSplitMultiset(ids, IsArrayIndex, NotArrayIndex);
    Sort(Filter(ids, IsArrayIndex), IntLe) + Filter(ids, NotArrayIndex)
  }

  /**
   * Array-index ids come first in ascending order; the other ids follow in
   * insertion order.
   */
  lemma EntriesOrderShape(ids: seq<int>)
    ensures var n := |Filter(ids, IsArrayIndex)|;
      n <= |EntriesOrder(ids)| &&
      (forall i :: 0 <= i < n ==> IsArrayIndex(EntriesOrder(ids)[i])) &&
      (forall i, j :: 0 <= i < j < n ==> EntriesOrder(ids)[i] <= EntriesOrder(ids)[j]) &&
      EntriesOrder(ids)[n..] == Filter(ids, NotArrayIndex)
  {
    var a, b := Filter(ids, IsArrayIndex), Filter(ids, NotArrayIndex);
    var sorted := Sort(a, IntLe);
    var r := EntriesOrder(ids);
    assert r == sorted + b;
    SortSorted(a, IntLe);
    assert |sorted| == |a| by {
      assert |sorted| == |multiset(sorted)| == |multiset(a)| == |a|;
    }
    forall i | 0 <= i < |a| ensures IsArrayIndex(r[i]) && r[i] == sorted[i] {
      assert sorted[i] in multiset(a);
    }
    assert r[|a|..] == b;
  }

  // ---------------------------------------------------------------------------
  // Stations
  // ---------------------------------------------------------------------------

  /** `!!v` for a coordinate: absent and zero are falsy. */
  predicate Truthy(v: Option<real>)
  {
    v.Some? && v.value != 0.0
  }

  /** `tags.name || tags['name:ru'] || ''` */
  function NameOf(tags: map<string, string>): string
  {
    Or(Tag(tags, "name"), Tag(tags, "name:ru"))
  }

  /** A node that passes the skip test apart from the seen-name test. */
  predicate Usable(node: Element)
  {
    NameOf(node.tags) != "" && Truthy(node.lat) && Truthy(node.lon)
  }

  /** The code points that `Number` reads as white space: the JavaScript WhiteSpace and LineTerminator characters. */
  predicate IsJsWhiteSpace(c: char)
  {
    ('\U{0009}' <= c <= '\U{000D}') || c == ' ' || c == '\U{00A0}' || c == '\U{1680}' ||
    ('\U{2000}' <= c <= '\U{200A}') || c == '\U{2028}' || c == '\U{2029}' || c == '\U{202F}' ||
    c == '\U{205F}' || c == '\U{3000}' || c == '\U{FEFF}'
  }

  /**
   * `!isNaN(ref[0])`: a one-character string is a number when it is a digit,
   * or white space, which converts to 0; a missing first character is not.
   */
  predicate NumericRef(ref: string)
  {
    |ref| > 0 && (IsDigit(ref[0]) || IsJsWhiteSpace(ref[0]))
  }

  /** The comparator of `lines.sort`, read as `cmp(a, b) <= 0`. */
  predicate LineLe(a: LineRef, b: LineRef)
  {
    if NumericRef(a.ref) != NumericRef(b.ref) then NumericRef(a.ref) else LexLe(a.ref, b.ref)
  }

  function SortLines(lines: seq<LineRef>): seq<LineRef>
  {
    Sort(lines, LineLe)
  }

  lemma LineLeIsTotalOrder()
    ensures StronglyConnected(LineLe) && Transitive(LineLe)
    ensures forall a, b :: LineLe(a, b) && LineLe(b, a) ==> a.ref == b.ref
  {
    forall a, b ensures LineLe(a, b) || LineLe(b, a) {
      LexLeTotal(a.ref, b.ref);
    }
    forall a, b, c | LineLe(a, b) && LineLe(b, c) ensures LineLe(a, c) {
      if NumericRef(a.ref) == NumericRef(b.ref) == NumericRef(c.ref) {
        LexLeTransitive(a.ref, b.ref, c.ref);
      }
    }
    forall a, b | LineLe(a, b) && LineLe(b, a) ensures a.ref == b.ref {
      LexLeAntisymmetric(a.ref, b.ref);
    }
  }

  /**
   * A station's lines are a reordering of its node's lines with numeric refs
   * first and refs strictly ascending within each group, so no ref repeats.
   */
  lemma SortLinesOrdered(lines: seq<LineRef>)
    requires DistinctRefs(lines)
    ensures multiset(SortLines(lines)) == multiset(lines)
    ensures forall i, j :: 0 <= i < j < |SortLines(lines)| && NumericRef(SortLines(lines)[j].ref) ==>
      NumericRef(SortLines(lines)[i].ref)
    ensures forall i, j :: 0 <= i < j < |SortLines(lines)| ==>
      (LexLt(SortLines(lines)[i].ref, SortLines(lines)[j].ref) ||
       (NumericRef(SortLines(lines)[i].ref) && !NumericRef(SortLines(lines)[j].ref)))
  {
    LineLeIsTotalOrder();
    SortSorted(lines, LineLe);
    DistinctKeysPermutation(lines, SortLines(lines), RefOf);
  }

  /**
   * No other reordering of a node's lines is sorted by the comparator, so the
   * order does not depend on the sort algorithm.
   */
  lemma SortLinesUnique(lines: seq<LineRef>, t: seq<LineRef>)
    requires DistinctRefs(lines)
    requires multiset(t) == multiset(lines) && SortedBy(t, LineLe)
    ensures t == SortLines(lines)
  {
    var r := SortLines(lines);
    LineLeIsTotalOrder();
    SortSorted(lines, LineLe);
    DistinctKeysPermutation(lines, r, RefOf);
    forall a, b | a in r && b in r && LineLe(a, b) && LineLe(b, a) ensures a == b {
      var i :| 0 <= i < |r| && r[i] == a;
      var j :| 0 <= j < |r| && r[j] == b;
      assert RefOf(r[i]) == RefOf(r[j]);
    }
    SortedPermutationsEqual(r, t, LineLe);
  }

  function RefOf(l: LineRef): string { l.ref }

  function ColourOf(l: LineRef): string { l.colour }

  /** `lineInfo[nodeId] || []` */
  function LinesOf(info: map<int, seq<LineRef>>, id: int): seq<LineRef>
  {
    if id in info then info[id] else []
  }

  /** The station a usable node yields, given the lines listed for it. */
  function StationFor(node: Element, lines: seq<LineRef>): (s: Station)
    requires Usable(node)
    ensures s.name == NameOf(node.tags)
    ensures s.name != "" && s.lat != 0.0 && s.lon != 0.0
    ensures s.nameEn != ""
    ensures |s.lineColors| == |lines|
  {
    var tags := node.tags;
    var name := NameOf(tags);
    var nameEn := Or(Tag(tags, "name:en"), Translit.Transliterate(name));
    var sorted := SortLines(lines);
    assert |sorted| == |multiset(sorted)| == |multiset(lines)| == |lines|;
    var lineColors := seq(|sorted|, i requires 0 <= i < |sorted| => ColourOf(sorted[i]));
    var colour := Or(if |lineColors| > 0 then lineColors[0] else "", DefaultColour);
    Station(name, nameEn, node.lat.value, node.lon.value,
            Join(seq(|sorted|, i requires 0 <= i < |sorted| => RefOf(sorted[i])), ", "),
            colour, lineColors)
  }

  /**
   * The fields of a station: its name is the node's `name` (else `name:ru`),
   * its English name is `name:en` or else the transliterated name, its lines
   * are the node's lines in line order, `line` joins their refs with ", ", and
   * `color` is the first line's colour, or `#888888` when no line serves it.
   */
  lemma StationFields(node: Element, lines: seq<LineRef>)
    requires Usable(node)
    requires forall l :: l in lines ==> l.colour != ""
    ensures var s, sorted := StationFor(node, lines), SortLines(lines);
      s.name == (if Tag(node.tags, "name") != "" then node.tags["name"] else node.tags["name:ru"]) &&
      s.nameEn == (if Tag(node.tags, "name:en") != "" then node.tags["name:en"] else Translit.Transliterate(s.name)) &&
      s.lat == node.lat.value && s.lon == node.lon.value &&
      |sorted| == |lines| && SortedBy(sorted, LineLe) &&
      (forall i :: 0 <= i < |sorted| ==> s.lineColors[i] == sorted[i].colour) &&
      s.line == Join(seq(|sorted|, i requires 0 <= i < |sorted| => sorted[i].ref), ", ") &&
      s.color == (if lines == [] then DefaultColour else sorted[0].colour)
  {
    var sorted := SortLines(lines);
    LineLeIsTotalOrder();
    SortSorted(lines, LineLe);
    assert |sorted| == |multiset(sorted)| == |multiset(lines)| == |lines|;
    if lines != [] {
      assert sorted[0] in multiset(lines);
    }
    var s := StationFor(node, lines);
    assert seq(|sorted|, i requires 0 <= i < |sorted| => RefOf(sorted[i])) ==
           seq(|sorted|, i requires 0 <= i < |sorted| => sorted[i].ref);
  }

  /** The names of `stations`: the `seenNames` set. */
  function Names(stations: seq<Station>): set<string>
  {
    if stations == [] then {}
    else Names(stations[..|stations| - 1]) + {stations[|stations| - 1].name}
  }

  /**
   * The stations the third loop pushes, visiting the node ids in `order`:
   * a node is skipped when it is not usable or its name was already taken.
   */
  function Kept(order: seq<int>, nodes: map<int, Element>, info: map<int, seq<LineRef>>): seq<Station>
    requires forall k :: k in order ==> k in nodes
  {
    if order == [] then []
    else
      var id := order[|order| - 1];
      var kept, node := Kept(order[..|order| - 1], nodes, info), nodes[id];
      if !Usable(node) || NameOf(node.tags) in Names(kept) then kept
      else kept + [StationFor(node, LinesOf(info, id))]
  }

  /** The node `order[j]` is usable and named `n`. */
  predicate UsableNamed(order: seq<int>, nodes: map<int, Element>, j: int, n: string)
  {
    0 <= j < |order| && order[j] in nodes && Usable(nodes[order[j]]) && NameOf(nodes[order[j]].tags) == n
  }

  /** ... and it is the first such node in `order`. */
  predicate FirstUsableNamed(order: seq<int>, nodes: map<int, Element>, j: int, n: string)
  {
    UsableNamed(order, nodes, j, n) && forall j' :: 0 <= j' < j ==> !UsableNamed(order, nodes, j', n)
  }

  lemma {:induction false} NamesMembership(stations: seq<Station>, n: string)
    ensures n in Names(stations) <==> exists i :: 0 <= i < |stations| && stations[i].name == n
  {
    if stations != [] {
      var init := stations[..|stations| - 1];
      NamesMembership(init, n);
      if exists i :: 0 <= i < |init| && init[i].name == n {
        var i :| 0 <= i < |init| && init[i].name == n;
        assert stations[i] == init[i];
      }
      if exists i :: 0 <= i < |stations| && stations[i].name == n {
        var i :| 0 <= i < |stations| && stations[i].name == n;
        if i < |init| {
          assert stations[i] == init[i];
        }
      }
    }
  }

  /** No two kept stations share a name. */
  lemma {:induction false} KeptNamesDistinct(order: seq<int>, nodes: map<int, Element>, info: map<int, seq<LineRef>>)
    requires forall k :: k in order ==> k in nodes
    ensures forall i, j :: 0 <= i < j < |Kept(order, nodes, info)| ==>
      Kept(order, nodes, info)[i].name != Kept(order, nodes, info)[j].name
  {
    if order != [] {
      var init, id := order[..|order| - 1], order[|order| - 1];
      assert forall k :: k in init ==> k in order;
      KeptNamesDistinct(init, nodes, info);
      var kept, node := Kept(init, nodes, info), nodes[id];
      if Usable(node) && NameOf(node.tags) !in Names(kept) {
        var st := StationFor(node, LinesOf(info, id));
        assert Kept(order, nodes, info) == kept + [st];
        NamesMembership(kept, st.name);
        forall i, j | 0 <= i < j < |kept + [st]| ensures (kept + [st])[i].name != (kept + [st])[j].name {
          if j == |kept| {
            assert (kept + [st])[i] == kept[i];
          } else {
            assert (kept + [st])[i] == kept[i] && (kept + [st])[j] == kept[j];
          }
        }
      } else {
        assert Kept(order, nodes, info) == kept;
      }
    }
  }

  lemma NamesAppend(stations: seq<Station>, s: Station)
    ensures Names(stations + [s]) == Names(stations) + {s.name}
  {
    assert (stations + [s])[..|stations|] == stations;
  }

  /** The names of the usable nodes among `order`. */
  function UsableNames(order: seq<int>, nodes: map<int, Element>): set<string>
    requires forall k :: k in order ==> k in nodes
  {
    if order == [] then {}
    else
      var id := order[|order| - 1];
      var node := nodes[id];
      UsableNames(order[..|order| - 1], nodes) + (if Usable(node) then {NameOf(node.tags)} else {})
  }

  lemma {:induction false} KeptNamesAreUsableNames(order: seq<int>, nodes: map<int, Element>, info: map<int, seq<LineRef>>)
    requires forall k :: k in order ==> k in nodes
    ensures Names(Kept(order, nodes, info)) == UsableNames(order, nodes)
  {
    if order != [] {
      var init, id := order[..|order| - 1], order[|order| - 1];
      assert forall k :: k in init ==> k in order;
      KeptNamesAreUsableNames(init, nodes, info);
      var kept, node := Kept(init, nodes, info), nodes[id];
      if Usable(node) && NameOf(node.tags) !in Names(kept) {
        var st := StationFor(node, LinesOf(info, id));
        assert Kept(order, nodes, info) == kept + [st];
        NamesAppend(kept, st);
      } else {
        assert Kept(order, nodes, info) == kept;
      }
    }
  }

  lemma {:induction false} UsableNamesExact(order: seq<int>, nodes: map<int, Element>, n: string)
    requires forall k :: k in order ==> k in nodes
    ensures n in UsableNames(order, nodes) <==> exists j :: UsableNamed(order, nodes, j, n)
  {
    if order != [] {
      var init := order[..|order| - 1];
      assert forall k :: k in init ==> k in order;
      UsableNamesExact(init, nodes, n);
      if exists j :: UsableNamed(order, nodes, j, n) {
        var j :| UsableNamed(order, nodes, j, n);
        if j < |init| {
          assert order[j] == init[j] && UsableNamed(init, nodes, j, n);
        }
      }
      if exists j :: UsableNamed(init, nodes, j, n) {
        var j :| UsableNamed(init, nodes, j, n);
        assert order[j] == init[j] && UsableNamed(order, nodes, j, n);
      }
      var id := order[|order| - 1];
      var node := nodes[id];
      assert UsableNamed(order, nodes, |order| - 1, n) == (Usable(node) && NameOf(node.tags) == n);
    }
  }

  /** A name is taken by a station exactly when some usable node carries it. */
  lemma KeptNames(order: seq<int>, nodes: map<int, Element>, info: map<int, seq<LineRef>>, n: string)
    requires forall k :: k in order ==> k in nodes
    ensures n in Names(Kept(order, nodes, info)) <==> exists j :: UsableNamed(order, nodes, j, n)
  {
    KeptNamesAreUsableNames(order, nodes, info);
    UsableNamesExact(order, nodes, n);
  }

  /** The station named `n` is the one built from the first usable node named `n`. */
  lemma {:induction false} KeptFromFirst(order: seq<int>, nodes: map<int, Element>, info: map<int, seq<LineRef>>, n: string)
    requires forall k :: k in order ==> k in nodes
    ensures forall s :: s in Kept(order, nodes, info) && s.name == n ==>
      exists j :: FirstUsableNamed(order, nodes, j, n) && s == StationFor(nodes[order[j]], LinesOf(info, order[j]))
  {
    if order != [] {
      var init, id := order[..|order| - 1], order[|order| - 1];
      assert forall k :: k in init ==> k in order;
      KeptFromFirst(init, nodes, info, n);
      KeptNames(init, nodes, info, n);
      var kept := Kept(init, nodes, info);
      forall j | 0 <= j < |init| ensures UsableNamed(order, nodes, j, n) == UsableNamed(init, nodes, j, n) {
        assert order[j] == init[j];
      }
      forall s | s in Kept(order, nodes, info) && s.name == n
        ensures exists j :: FirstUsableNamed(order, nodes, j, n) && s == StationFor(nodes[order[j]], LinesOf(info, order[j]))
      {
        if s in kept {
          var j :| FirstUsableNamed(init, nodes, j, n) && s == StationFor(nodes[init[j]], LinesOf(info, init[j]));
          assert FirstUsableNamed(order, nodes, j, n);
        } else {
          assert FirstUsableNamed(order, nodes, |order| - 1, n);
        }
      }
    }
  }

  /** `stations.sort((a, b) => a.name.localeCompare(b.name))`, read as `cmp(a, b) <= 0`. */
  predicate StationLe(a: Station, b: Station)
  {
    LexLe(a.name, b.name)
  }

  function SortStations(stations: seq<Station>): seq<Station>
  {
    Sort(stations, StationLe)
  }

  function NameOfStation(s: Station): string { s.name }

  /**
   * Stations with distinct names sort into strictly ascending name order, as
   * a reordering of the same stations, and into the only such order.
   */
  lemma SortStationsOrdered(stations: seq<Station>)
    requires forall i, j :: 0 <= i < j < |stations| ==> stations[i].name != stations[j].name
    ensures multiset(SortStations(stations)) == multiset(stations)
    ensures forall i, j :: 0 <= i < j < |SortStations(stations)| ==>
      LexLt(SortStations(stations)[i].name, SortStations(stations)[j].name)
    ensures forall t :: multiset(t) == multiset(stations) && SortedBy(t, StationLe) ==> t == SortStations(stations)
  {
    var r := SortStations(stations);
    forall a, b ensures StationLe(a, b) || StationLe(b, a) {
      LexLeTotal(a.name, b.name);
    }
    forall a, b, c | StationLe(a, b) && StationLe(b, c) ensures StationLe(a, c) {
      LexLeTransitive(a.name, b.name, c.name);
    }
    SortSorted(stations, StationLe);
    assert DistinctKeys(stations, NameOfStation);
    DistinctKeysPermutation(stations, r, NameOfStation);
    forall a, b | a in r && b in r && StationLe(a, b) && StationLe(b, a) ensures a == b {
      LexLeAntisymmetric(a.name, b.name);
      var i :| 0 <= i < |r| && r[i] == a;
      var j :| 0 <= j < |r| && r[j] == b;
      assert NameOfStation(r[i]) == NameOfStation(r[j]);
    }
    forall t | multiset(t) == multiset(stations) && SortedBy(t, StationLe) ensures t == r {
      SortedPermutationsEqual(r, t, StationLe);
    }
  }

  /** The third loop of `processData`, followed by the sort by name. */
  method BuildStations(order: seq<int>, nodes: map<int, Element>, lineInfo: map<int, seq<LineRef>>)
    returns (stations: seq<Station>)
    requires forall k :: k in order ==> k in nodes
    ensures stations == SortStations(Kept(order, nodes, lineInfo))
  {
    var seenNames: set<string> := {};
    stations := [];
    for i := 0 to |order|
      invariant forall k :: k in order[..i] ==> k in nodes
      invariant stations == Kept(order[..i], nodes, lineInfo) && seenNames == Names(stations)
    {
      var nodeId := order[i];
      var node := nodes[nodeId];
      assert order[..i + 1][..i] == order[..i];
      var tags := node.tags;
      var name := Or(Tag(tags, "name"), Tag(tags, "name:ru"));
      if name == "" || !Truthy(node.lat) || !Truthy(node.lon) || name in seenNames {
        continue;
      }
      seenNames := seenNames + {name};
      var station := StationFor(node, LinesOf(lineInfo, nodeId));
      NamesAppend(stations, station);
      stations := stations + [station];
    }
    assert order[..|order|] == order;
    stations := SortStations(stations);
  }

  // ---------------------------------------------------------------------------
  // Line geometries
  // ---------------------------------------------------------------------------

  /** A way with at least two points can be drawn as a line. */
  predicate LongEnough(way: Element)
  {
    |way.geometry| >= 2
  }

  function GeometryOf(way: Element): LineGeometry
  {
    LineGeometry(way.geometry, Or(Tag(way.tags, "colour"), DefaultColour))
  }

  function GeometriesOf(ways: seq<Element>): seq<LineGeometry>
  {
    seq(|ways|, i requires 0 <= i < |ways| => GeometryOf(ways[i]))
  }

  /** The fourth loop of `processData`. */
  method BuildLineGeometries(ways: seq<Element>) returns (lineGeometries: seq<LineGeometry>)
    ensures lineGeometries == GeometriesOf(Filter(ways, LongEnough))
  {
    lineGeometries := [];
    for i := 0 to |ways|
      invariant lineGeometries == GeometriesOf(Filter(ways[..i], LongEnough))
    {
      var way := ways[i];
      assert ways[..i + 1][..i] == ways[..i];
      var geometry := way.geometry;
      if |geometry| >= 2 {
        var colour := Or(Tag(way.tags, "colour"), DefaultColour);
        assert GeometriesOf(Filter(ways[..i], LongEnough) + [way]) ==
               GeometriesOf(Filter(ways[..i], LongEnough)) + [LineGeometry(geometry, colour)];
        lineGeometries := lineGeometries + [LineGeometry(geometry, colour)];
      }
    }
    assert ways[..|ways|] == ways;
  }

  /**
   * The geometries are those of exactly the ways with at least two points, in
   * input order, each with the way's colour or `#888888`.
   */
  lemma GeometriesExact(ways: seq<Element>)
    ensures var g, idx := GeometriesOf(Filter(ways, LongEnough)), FilterIndices(ways, LongEnough);
      |g| == |idx| &&
      (forall k :: 0 <= k < |g| ==>
        (idx[k] < |ways| && g[k] == GeometryOf(ways[idx[k]]) && |g[k].coords| >= 2 && g[k].color != "")) &&
      (forall k, k' :: 0 <= k < k' < |idx| ==> idx[k] < idx[k']) &&
      (forall i :: 0 <= i < |ways| && |ways[i].geometry| >= 2 ==> i in idx)
  {
    var f := Filter(ways, LongEnough);
    FilterIsOrderedSelection(ways, LongEnough);
    forall k | 0 <= k < |f| ensures LongEnough(f[k]) {
      assert f[k] in f;
    }
  }

  // ---------------------------------------------------------------------------
  // processData
  // ---------------------------------------------------------------------------

  /** The node ids in the order the third loop visits them, all present in the node table. */
  function StationOrder(elements: seq<Element>): (order: seq<int>)
    ensures forall k :: k in order ==> k in NodeTable(elements)
  {
    NodeIdsAreTableKeys(elements);
    var order := EntriesOrder(NodeIds(elements));
    assert forall k :: k in order ==> k in multiset(NodeIds(elements));
    order
  }

  function LineInfoOf(elements: seq<Element>): map<int, seq<LineRef>>
  {
    LineInfo(Contributions(Filter(elements, IsRelation)))
  }

  /** The unsorted stations of `processData`. */
  function KeptStations(elements: seq<Element>): seq<Station>
  {
    Kept(StationOrder(elements), NodeTable(elements), LineInfoOf(elements))
  }

  /** The global `stations` after `processData`. */
  function Stations(elements: seq<Element>): seq<Station>
  {
    SortStations(KeptStations(elements))
  }

  /** The global `lineGeometries` after `processData`. */
  function LineGeometries(elements: seq<Element>): seq<LineGeometry>
  {
    GeometriesOf(Filter(Filter(elements, IsWay), LongEnough))
  }

  method ProcessData(elements: seq<Element>) returns (stations: seq<Station>, lineGeometries: seq<LineGeometry>)
    ensures stations == Stations(elements)
    ensures lineGeometries == LineGeometries(elements)
    ensures forall i, j :: 0 <= i < j < |stations| ==> LexLt(stations[i].name, stations[j].name)
  {
    var routes, nodes, nodeOrder, ways := Classify(elements);
    var lineInfo := BuildLineInfo(routes);
    var order := EntriesOrder(nodeOrder);
    assert order == StationOrder(elements);
    stations := BuildStations(order, nodes, lineInfo);
    lineGeometries := BuildLineGeometries(ways);
    StationsAscending(elements);
  }

  /** The stations are in strictly ascending name order, so no name repeats. */
  lemma StationsAscending(elements: seq<Element>)
    ensures multiset(Stations(elements)) == multiset(KeptStations(elements))
    ensures forall i, j :: 0 <= i < j < |Stations(elements)| ==>
      LexLt(Stations(elements)[i].name, Stations(elements)[j].name)
  {
    KeptNamesDistinct(StationOrder(elements), NodeTable(elements), LineInfoOf(elements));
    SortStationsOrdered(KeptStations(elements));
  }

  /**
   * `s` is the station of the node visited at position `j`, the first usable
   * node named `s.name`, and that node's lines carry no repeated ref.
   */
  predicate BuiltFromFirstNode(elements: seq<Element>, j: int, s: Station)
  {
    var order, nodes, info := StationOrder(elements), NodeTable(elements), LineInfoOf(elements);
    FirstUsableNamed(order, nodes, j, s.name) &&
    s == StationFor(nodes[order[j]], LinesOf(info, order[j])) &&
    DistinctRefs(LinesOf(info, order[j]))
  }

  /**
   * Every station is built from the first usable node with its name, in the
   * order `Object.entries` visits the nodes; its lines carry no repeated ref,
   * and its colour is the first line's colour or `#888888`.
   */
  ghost predicate FromFirstNode(elements: seq<Element>, s: Station)
  {
    (exists j :: BuiltFromFirstNode(elements, j, s)) &&
    s.color == (if s.lineColors == [] then DefaultColour else s.lineColors[0])
  }

  lemma StationsFromFirstNodes(elements: seq<Element>)
    ensures forall s :: s in Stations(elements) ==> FromFirstNode(elements, s)
  {
    forall s | s in Stations(elements) ensures FromFirstNode(elements, s) {
      assert s in multiset(KeptStations(elements));
      KeptStationFromFirstNode(elements, s);
    }
  }

  lemma KeptStationFromFirstNode(elements: seq<Element>, s: Station)
    requires s in KeptStations(elements)
    ensures exists j :: BuiltFromFirstNode(elements, j, s)
    ensures s.color == (if s.lineColors == [] then DefaultColour else s.lineColors[0])
  {
    var order, nodes, info := StationOrder(elements), NodeTable(elements), LineInfoOf(elements);
    KeptFromFirst(order, nodes, info, s.name);
    var j :| FirstUsableNamed(order, nodes, j, s.name) && s == StationFor(nodes[order[j]], LinesOf(info, order[j]));
    LinesOfLineInfo(elements, order[j]);
    StationFields(nodes[order[j]], LinesOf(info, order[j]));
    assert BuiltFromFirstNode(elements, j, s);
  }

  /** The lines listed for any node carry distinct refs and non-empty colours. */
  lemma LinesOfLineInfo(elements: seq<Element>, id: int)
    ensures DistinctRefs(LinesOf(LineInfoOf(elements), id))
    ensures forall l :: l in LinesOf(LineInfoOf(elements), id) ==> l.colour != ""
  {
    LineInfoDistinctRefs(Contributions(Filter(elements, IsRelation)));
    LineInfoNonEmptyFields(Filter(elements, IsRelation));
  }
}
