/** The text a page's DOM hash is taken over: one bracketed entry per element,
    with a fixed list of attributes. */
module DomFingerprint {

  import opened JsonText

  datatype Element = Element(tag: string, attributes: map<string, string>, children: seq<Element>)

  const SKIPPED: seq<string> := ["SCRIPT", "STYLE", "NOSCRIPT", "TEMPLATE"]

  const ATTRIBUTES: seq<string> := [
    "role", "href", "type", "disabled", "hidden", "aria-hidden",
    "aria-expanded", "aria-disabled", "aria-checked", "aria-selected", "aria-busy"]

  /** What of an element the text records. */
  datatype Shape = Shape(tag: string, listed: seq<(string, string)>, children: seq<Shape>)

  function Listed(attributes: map<string, string>, keys: seq<string>): seq<(string, string)> {
    if keys == [] then []
    else (if keys[0] in attributes then [(keys[0], attributes[keys[0]])] else []) + Listed(attributes, keys[1..])
  }

  /** The element's own entry, or none if it is skipped. */
  function ShapeOf(el: Element): seq<Shape>
    decreases el, 1
  {
    if el.tag in SKIPPED then [] else [Shape(el.tag, Listed(el.attributes, ATTRIBUTES), Shapes(el.children))]
  }

  /** The forest with the skipped elements, and all below them, taken out. */
  function Shapes(forest: seq<Element>): seq<Shape>
    decreases forest, 0
  {
    if forest == [] then [] else ShapeOf(forest[0]) + Shapes(forest[1..])
  }

  function Size(shapes: seq<Shape>): nat {
    if shapes == [] then 0 else 1 + Size(shapes[0].children) + Size(shapes[1..])
  }

  // ---- The text, written onto what follows it ----

  function WriteAttributes(listed: seq<(string, string)>, after: string): string {
    if listed == [] then after
    else "|" + (listed[0].0 + ("=" + (Quote(listed[0].1) + WriteAttributes(listed[1..], after))))
  }

  function Write(shapes: seq<Shape>, after: string): string
    decreases shapes, 1
  {
    if shapes == [] then after
    else "<" + (shapes[0].tag + WriteAttributes(shapes[0].listed, ">" + Write(shapes[0].children, Foot(shapes, after))))
  }

  /** From the first shape's closing bracket on. */
  function Foot(shapes: seq<Shape>, after: string): string
    requires shapes != []
    decreases shapes, 0
  {
    "</" + (shapes[0].tag + (">" + Write(shapes[1..], after)))
  }

  function Text(shapes: seq<Shape>): string {
    Write(shapes, "")
  }

  // ---- The walk that pushes it piece by piece ----

  function AttributePieces(listed: seq<(string, string)>): seq<string> {
    if listed == [] then []
    else ["|", listed[0].0, "=", Quote(listed[0].1)] + AttributePieces(listed[1..])
  }

  function ShapePieces(s: Shape): seq<string>
    decreases s, 1
  {
    ["<", s.tag] + (AttributePieces(s.listed) + ([">"] + (Pieces(s.children) + ["</", s.tag, ">"])))
  }

  function Pieces(shapes: seq<Shape>): seq<string>
    decreases shapes, 0
  {
    if shapes == [] then [] else ShapePieces(shapes[0]) + Pieces(shapes[1..])
  }

  /** The pieces joined, onto what follows them. */
  function JoinOnto(pieces: seq<string>, after: string): string {
    if pieces == [] then after else pieces[0] + JoinOnto(pieces[1..], after)
  }

  class Measurement {
    var parts: seq<string>
    var nodeCount: nat

    constructor ()
      ensures parts == [] && nodeCount == 0
    {
      parts, nodeCount := [], 0;
    }

    method WalkAttributes(attributes: map<string, string>, keys: seq<string>)
      modifies this`parts
      ensures parts == old(parts) + AttributePieces(Listed(attributes, keys))
    {
      for i := 0 to |keys|
        invariant parts + AttributePieces(Listed(attributes, keys[i..]))
                  == old(parts) + AttributePieces(Listed(attributes, keys))
      {
        var key := keys[i];
        ListedUnfolds(attributes, keys[i..], keys[i + 1..]);
        if key in attributes {
          var entry := ["|", key, "=", Quote(attributes[key])];
          Regroups(parts, entry, AttributePieces(Listed(attributes, keys[i + 1..])));
          parts := parts + entry;
        } else {
          ghost var rest := AttributePieces(Listed(attributes, keys[i + 1..]));
          assert [] + rest == rest;
        }
      }
      assert parts + [] == parts;
    }

    method Walk(el: Element)
      modifies this
      ensures parts == old(parts) + Pieces(Shapes([el]))
      ensures nodeCount == old(nodeCount) + Size(Shapes([el]))
      decreases el, 1
    {
      if el.tag in SKIPPED {
        assert parts + [] == parts;
        return;
      }
      nodeCount := nodeCount + 1;
      parts := parts + ["<", el.tag];
      WalkAttributes(el.attributes, ATTRIBUTES);
      parts := parts + [">"];
      WalkAll(el.children);
      parts := parts + ["</", el.tag, ">"];
      OneShape(el);
      RegroupsFive(old(parts), ["<", el.tag], AttributePieces(Listed(el.attributes, ATTRIBUTES)), [">"],
                   Pieces(Shapes(el.children)), ["</", el.tag, ">"]);
    }

    method WalkAll(forest: seq<Element>)
      modifies this
      ensures parts == old(parts) + Pieces(Shapes(forest))
      ensures nodeCount == old(nodeCount) + Size(Shapes(forest))
      decreases forest, 0
    {
      for i := 0 to |forest|
        invariant parts + Pieces(Shapes(forest[i..])) == old(parts) + Pieces(Shapes(forest))
        invariant nodeCount + Size(Shapes(forest[i..])) == old(nodeCount) + Size(Shapes(forest))
      {
        ShapesUnfold(forest[i..], forest[i + 1..]);
        Regroups(parts, Pieces(Shapes([forest[i]])), Pieces(Shapes(forest[i + 1..])));
        Walk(forest[i]);
      }
      assert parts + [] == parts;
    }
  }

  /** One measurement of the selected roots: the pieces the hash is taken over, and how many elements they name. */
  method Measure(roots: seq<Element>) returns (parts: seq<string>, nodeCount: nat)
    ensures JoinOnto(parts, "") == Text(Shapes(roots))
    ensures nodeCount == Size(Shapes(roots))
  {
    var m := new Measurement();
    m.WalkAll(roots);
    parts, nodeCount := m.parts, m.nodeCount;
    assert [] + Pieces(Shapes(roots)) == Pieces(Shapes(roots));
    PiecesJoin(Shapes(roots), "");
  }

  lemma Regroups(a: seq<string>, b: seq<string>, c: seq<string>)
    ensures (a + b) + c == a + (b + c)
  {
  }

  lemma RegroupsFive(o: seq<string>, a: seq<string>, b: seq<string>, c: seq<string>, d: seq<string>, e: seq<string>)
    ensures ((((o + a) + b) + c) + d) + e == o + (a + (b + (c + (d + e))))
  {
    Regroups(((o + a) + b) + c, d, e);
    Regroups((o + a) + b, c, d + e);
    Regroups(o + a, b, c + (d + e));
    Regroups(o, a, b + (c + (d + e)));
  }

  lemma ListedUnfolds(attributes: map<string, string>, keys: seq<string>, rest: seq<string>)
    requires keys != [] && keys[1..] == rest
    ensures AttributePieces(Listed(attributes, keys)) ==
            (if keys[0] in attributes then ["|", keys[0], "=", Quote(attributes[keys[0]])] else [])
            + AttributePieces(Listed(attributes, rest))
  {
    if keys[0] in attributes {
      assert Listed(attributes, keys)[1..] == Listed(attributes, rest);
    } else {
      assert Listed(attributes, keys) == Listed(attributes, rest);
    }
  }

  lemma SingleShape(el: Element)
    ensures Shapes([el]) == ShapeOf(el)
  {
    assert [el][1..] == [];
  }

  lemma PiecesOfFirst(first: seq<Shape>, rest: seq<Shape>)
    requires |first| <= 1
    ensures Pieces(first + rest) == Pieces(first) + Pieces(rest)
    ensures Size(first + rest) == Size(first) + Size(rest)
  {
    if first == [] {
      assert first + rest == rest;
    } else {
      assert first[1..] == [] && (first + rest)[1..] == rest;
      assert Pieces(first) == ShapePieces(first[0]) + Pieces([]);
    }
  }

  lemma OneShape(el: Element)
    requires el.tag !in SKIPPED
    ensures Pieces(Shapes([el])) ==
            ["<", el.tag] + (AttributePieces(Listed(el.attributes, ATTRIBUTES))
                             + ([">"] + (Pieces(Shapes(el.children)) + ["</", el.tag, ">"])))
    ensures Size(Shapes([el])) == 1 + Size(Shapes(el.children))
  {
    SingleShape(el);
    var s := ShapeOf(el)[0];
    assert ShapeOf(el)[1..] == [];
    assert Pieces([s]) == ShapePieces(s) + Pieces([]);
  }

  lemma ShapesUnfold(forest: seq<Element>, rest: seq<Element>)
    requires forest != [] && forest[1..] == rest
    ensures Pieces(Shapes(forest)) == Pieces(Shapes([forest[0]])) + Pieces(Shapes(rest))
    ensures Size(Shapes(forest)) == Size(Shapes([forest[0]])) + Size(Shapes(rest))
  {
    SingleShape(forest[0]);
    PiecesOfFirst(ShapeOf(forest[0]), Shapes(rest));
  }

  lemma {:induction false} JoinOntoConcat(a: seq<string>, b: seq<string>, after: string)
    ensures JoinOnto(a + b, after) == JoinOnto(a, JoinOnto(b, after))
  {
    if a == [] {
      assert a + b == b;
    } else {
      assert (a + b)[1..] == a[1..] + b;
      JoinOntoConcat(a[1..], b, after);
    }
  }

  lemma JoinOne(p: string, after: string)
    ensures JoinOnto([p], after) == p + after
  {
    assert [p][1..] == [];
  }

  lemma JoinTwo(p: string, q: string, after: string)
    ensures JoinOnto([p, q], after) == p + (q + after)
  {
    assert [p, q][1..] == [q];
    JoinOne(q, after);
  }

  lemma JoinThree(p: string, q: string, r: string, after: string)
    ensures JoinOnto([p, q, r], after) == p + (q + (r + after))
  {
    assert [p, q, r][1..] == [q, r];
    JoinTwo(q, r, after);
  }

  lemma JoinFour(p: string, q: string, r: string, s: string, after: string)
    ensures JoinOnto([p, q, r, s], after) == p + (q + (r + (s + after)))
  {
    assert [p, q, r, s][1..] == [q, r, s];
    JoinThree(q, r, s, after);
  }

  lemma {:induction false} AttributePiecesJoin(listed: seq<(string, string)>, after: string)
    ensures JoinOnto(AttributePieces(listed), after) == WriteAttributes(listed, after)
  {
    if listed != [] {
      AttributePiecesJoin(listed[1..], after);
      var entry := ["|", listed[0].0, "=", Quote(listed[0].1)];
      JoinOntoConcat(entry, AttributePieces(listed[1..]), after);
      JoinFour("|", listed[0].0, "=", Quote(listed[0].1), WriteAttributes(listed[1..], after));
    }
  }

  /** The pieces the walk pushes, joined, are the text. */
  lemma {:induction false} PiecesJoin(shapes: seq<Shape>, after: string)
    ensures JoinOnto(Pieces(shapes), after) == Write(shapes, after)
  {
    if shapes != [] {
      var s := shapes[0];
      var rest := Write(shapes[1..], after);
      PiecesJoin(shapes[1..], after);
      JoinOntoConcat(ShapePieces(s), Pieces(shapes[1..]), after);
      var tail := ["</", s.tag, ">"];
      JoinThree("</", s.tag, ">", rest);
      JoinOntoConcat(Pieces(s.children), tail, rest);
      PiecesJoin(s.children, Foot(shapes, after));
      JoinOntoConcat([">"], Pieces(s.children) + tail, rest);
      JoinOne(">", Write(s.children, Foot(shapes, after)));
      JoinOntoConcat(AttributePieces(s.listed), [">"] + (Pieces(s.children) + tail), rest);
      AttributePiecesJoin(s.listed, ">" + Write(s.children, Foot(shapes, after)));
      JoinOntoConcat(["<", s.tag], AttributePieces(s.listed) + ([">"] + (Pieces(s.children) + tail)), rest);
      JoinTwo("<", s.tag, WriteAttributes(s.listed, ">" + Write(s.children, Foot(shapes, after))));
    }
  }

  // ---- The text determines what it records ----

  /** Of a listed attribute what stands before its value and the value's first quotation mark. */
  function Opening(name: string): string {
    "|" + (name + "=\"")
  }

  predicate OpensAt(tag: string, i: nat, name: string) {
    i + |Opening(name)| <= |tag| && tag[i..i + |Opening(name)|] == Opening(name)
  }

  /** A parsed tag never contains `>` and never begins with `/`. Besides, a listed
      attribute must not seem to open in it. */
  ghost predicate GoodTag(tag: string) {
    && '>' !in tag
    && (tag != "" ==> tag[0] != '/')
    && forall i: nat, name :: name in ATTRIBUTES ==> !OpensAt(tag, i, name)
  }

  predicate IsGoodKey(key: string) {
    key != "" && 'a' <= key[0] <= 'z' && forall i :: 0 <= i < |key| ==> key[i] == '-' || 'a' <= key[i] <= 'z'
  }

  predicate GoodKeys(listed: seq<(string, string)>) {
    forall i :: 0 <= i < |listed| ==> listed[i].0 in ATTRIBUTES
  }

  ghost predicate GoodShapes(shapes: seq<Shape>) {
    forall i :: 0 <= i < |shapes| ==>
      GoodTag(shapes[i].tag) && GoodKeys(shapes[i].listed) && GoodShapes(shapes[i].children)
  }

  ghost predicate GoodTags(forest: seq<Element>) {
    forall i :: 0 <= i < |forest| ==> GoodTag(forest[i].tag) && GoodTags(forest[i].children)
  }

  function FirstStop(s: string, stops: set<char>): nat {
    if s == "" || s[0] in stops then 0 else 1 + FirstStop(s[1..], stops)
  }

  lemma {:induction false} StopsAfter(a: string, x: string, stops: set<char>)
    requires (forall c :: c in stops ==> c !in a) && x != "" && x[0] in stops
    ensures FirstStop(a + x, stops) == |a|
  {
    if a == "" {
      assert a + x == x;
    } else {
      assert a[0] in a && (a + x)[1..] == a[1..] + x;
      assert forall c :: c in a[1..] ==> c in a;
      StopsAfter(a[1..], x, stops);
    }
  }

  /** A text cut where one of the stop characters first stands. */
  lemma CutsAtStop(a: string, b: string, x: string, y: string, stops: set<char>)
    requires forall c :: c in stops ==> c !in a && c !in b
    requires x != "" && y != "" && x[0] in stops && y[0] in stops
    requires a + x == b + y
    ensures a == b && x == y
  {
    StopsAfter(a, x, stops);
    StopsAfter(b, y, stops);
    assert (a + x)[..|a|] == a && (b + y)[..|b|] == b && (a + x)[|a|..] == x && (b + y)[|b|..] == y;
  }

  lemma CutsPrefix(p: string, x: string, y: string)
    requires p + x == p + y
    ensures x == y
  {
    assert (p + x)[|p|..] == x && (p + y)[|p|..] == y;
  }

  lemma {:induction false} AttributesCut(a: seq<(string, string)>, b: seq<(string, string)>, x: string, y: string)
    requires GoodKeys(a) && GoodKeys(b)
    requires WriteAttributes(a, ">" + x) == WriteAttributes(b, ">" + y)
    ensures a == b && x == y
  {
    AttributesAreGood();
    if a == [] || b == [] {
      assert WriteAttributes(a, ">" + x)[0] == if a == [] then '>' else '|';
      assert WriteAttributes(b, ">" + y)[0] == if b == [] then '>' else '|';
      CutsPrefix(">", x, y);
    } else {
      EntryCuts(a[0], b[0], WriteAttributes(a[1..], ">" + x), WriteAttributes(b[1..], ">" + y));
      assert GoodKeys(a[1..]) && GoodKeys(b[1..]);
      AttributesCut(a[1..], b[1..], x, y);
      assert a == [a[0]] + a[1..] && b == [b[0]] + b[1..];
    }
  }

  lemma EntryCuts(a: (string, string), b: (string, string), x: string, y: string)
    requires '=' !in a.0 && '=' !in b.0
    requires "|" + (a.0 + ("=" + (Quote(a.1) + x))) == "|" + (b.0 + ("=" + (Quote(b.1) + y)))
    ensures a == b && x == y
  {
    CutsPrefix("|", a.0 + ("=" + (Quote(a.1) + x)), b.0 + ("=" + (Quote(b.1) + y)));
    CutsAtStop(a.0, b.0, "=" + (Quote(a.1) + x), "=" + (Quote(b.1) + y), {'='});
    CutsPrefix("=", Quote(a.1) + x, Quote(b.1) + y);
    QuoteCuts(a.1, b.1, x, y);
  }

  /** What may follow a forest's text: nothing, or the end of the element around it. */
  predicate Closes(s: string) {
    s == "" || (|s| >= 2 && s[0] == '<' && s[1] == '/')
  }

  lemma AttributesStop(listed: seq<(string, string)>, x: string)
    ensures var s := WriteAttributes(listed, ">" + x); s != "" && s[0] in {'|', '>'}
  {
  }

  lemma OpensNotCloses(tag: string, listed: seq<(string, string)>, x: string)
    requires GoodTag(tag)
    ensures !Closes("<" + (tag + WriteAttributes(listed, ">" + x)))
  {
    AttributesStop(listed, x);
    var inner := tag + WriteAttributes(listed, ">" + x);
    assert inner != "" && inner[0] != '/';
    assert ("<" + inner)[1] == inner[0];
  }

  /** Inside the opening of an attribute nothing looks like the end of a tag. */
  lemma OpeningIsClean(name: string)
    requires name in ATTRIBUTES
    ensures forall k :: 0 < k < |Opening(name)| ==> Opening(name)[k] != '|' && Opening(name)[k] != '>'
  {
    AttributesAreGood();
  }

  lemma AttributesOpen(m: seq<(string, string)>, x: string) returns (rest: string)
    requires m != []
    ensures WriteAttributes(m, x) == Opening(m[0].0) + rest
  {
    var name, value := m[0].0, Quote(m[0].1);
    rest := value[1..] + WriteAttributes(m[1..], x);
    assert value == "\"" + value[1..];
    assert value + WriteAttributes(m[1..], x) == "\"" + rest;
    assert "|" + (name + ("=" + ("\"" + rest))) == Opening(name) + rest;
  }

  lemma WholeOpening(o: string, rest: string, c: string, w: string)
    requires o + rest == c + w && c != "" && w != "" && forall k :: 0 < k < |o| ==> o[k] != w[0]
    ensures |o| <= |c| && c[..|o|] == o
  {
    assert (c + w)[|c|] == w[0];
    assert (o + rest)[..|o|] == o;
  }

  /** What a longer tag would go on with: a `>`, or the whole opening of an attribute. */
  lemma TagGoesOn(c: string, m: seq<(string, string)>, n: seq<(string, string)>, x: string, y: string)
    requires GoodKeys(m) && c != "" && WriteAttributes(m, ">" + x) == c + WriteAttributes(n, ">" + y)
    ensures c[0] == '>' || (m != [] && |Opening(m[0].0)| <= |c| && c[..|Opening(m[0].0)|] == Opening(m[0].0))
  {
    var w := WriteAttributes(n, ">" + y);
    assert (c + w)[0] == c[0];
    if m != [] {
      var rest := AttributesOpen(m, ">" + x);
      OpeningIsClean(m[0].0);
      AttributesStop(n, y);
      WholeOpening(Opening(m[0].0), rest, c, w);
    }
  }

  lemma Remains(a: string, u: string, b: string, w: string)
    requires a + u == b + w && |a| <= |b|
    ensures u == b[|a|..] + w
  {
    assert (a + u)[|a|..] == u && (b + w)[|a|..] == b[|a|..] + w;
  }

  lemma GoodTagStops(tag: string, i: nat, m: seq<(string, string)>)
    requires GoodTag(tag) && GoodKeys(m) && i < |tag|
    ensures tag[i] != '>'
    ensures m != [] ==>
              var name := m[0].0; i + |Opening(name)| <= |tag| ==> tag[i..][..|Opening(name)|] != Opening(name)
  {
    assert tag[i] in tag;
    if m != [] && i + |Opening(m[0].0)| <= |tag| {
      assert !OpensAt(tag, i, m[0].0);
      assert tag[i..][..|Opening(m[0].0)|] == tag[i..i + |Opening(m[0].0)|];
    }
  }

  lemma NotLonger(a: string, m: seq<(string, string)>, b: string, n: seq<(string, string)>, x: string, y: string)
    requires GoodTag(b) && GoodKeys(m)
    requires a + WriteAttributes(m, ">" + x) == b + WriteAttributes(n, ">" + y)
    ensures |b| <= |a|
  {
    if |a| < |b| {
      Remains(a, WriteAttributes(m, ">" + x), b, WriteAttributes(n, ">" + y));
      GoodTagStops(b, |a|, m);
      TagGoesOn(b[|a|..], m, n, x, y);
    }
  }

  lemma TagCuts(a: string, m: seq<(string, string)>, b: string, n: seq<(string, string)>, x: string, y: string)
    requires GoodTag(a) && GoodTag(b) && GoodKeys(m) && GoodKeys(n)
    requires a + WriteAttributes(m, ">" + x) == b + WriteAttributes(n, ">" + y)
    ensures a == b
  {
    NotLonger(a, m, b, n, x, y);
    NotLonger(b, n, a, m, y, x);
    assert (a + WriteAttributes(m, ">" + x))[..|a|] == a && (b + WriteAttributes(n, ">" + y))[..|b|] == b;
  }

  lemma HeadCuts(a: Shape, b: Shape, x: string, y: string)
    requires GoodTag(a.tag) && GoodTag(b.tag) && GoodKeys(a.listed) && GoodKeys(b.listed)
    requires "<" + (a.tag + WriteAttributes(a.listed, ">" + x)) == "<" + (b.tag + WriteAttributes(b.listed, ">" + y))
    ensures a.tag == b.tag && a.listed == b.listed && x == y
  {
    var u, v := WriteAttributes(a.listed, ">" + x), WriteAttributes(b.listed, ">" + y);
    CutsPrefix("<", a.tag + u, b.tag + v);
    TagCuts(a.tag, a.listed, b.tag, b.listed, x, y);
    CutsPrefix(a.tag, u, v);
    AttributesCut(a.listed, b.listed, x, y);
  }

  lemma {:induction false} TextCuts(a: seq<Shape>, b: seq<Shape>, x: string, y: string)
    requires GoodShapes(a) && GoodShapes(b) && Closes(x) && Closes(y)
    requires Write(a, x) == Write(b, y)
    ensures a == b && x == y
    decreases a
  {
    if a == [] && b == [] {
    } else if a == [] {
      OpensNotCloses(b[0].tag, b[0].listed, Write(b[0].children, Foot(b, y)));
    } else if b == [] {
      OpensNotCloses(a[0].tag, a[0].listed, Write(a[0].children, Foot(a, x)));
    } else {
      var footA, footB := Foot(a, x), Foot(b, y);
      HeadCuts(a[0], b[0], Write(a[0].children, footA), Write(b[0].children, footB));
      TextCuts(a[0].children, b[0].children, footA, footB);
      FootCuts(a, b, x, y);
      TextCuts(a[1..], b[1..], x, y);
      SameShapes(a, b);
    }
  }

  lemma SameShapes(a: seq<Shape>, b: seq<Shape>)
    requires a != [] && b != [] && a[1..] == b[1..]
    requires a[0].tag == b[0].tag && a[0].listed == b[0].listed && a[0].children == b[0].children
    ensures a == b
  {
    assert a == [a[0]] + a[1..] && b == [b[0]] + b[1..];
  }

  lemma FootCuts(a: seq<Shape>, b: seq<Shape>, x: string, y: string)
    requires a != [] && b != [] && a[0].tag == b[0].tag && Foot(a, x) == Foot(b, y)
    ensures Write(a[1..], x) == Write(b[1..], y)
  {
    var u, v := Write(a[1..], x), Write(b[1..], y);
    CutsPrefix("</", a[0].tag + (">" + u), b[0].tag + (">" + v));
    CutsPrefix(a[0].tag, ">" + u, ">" + v);
    CutsPrefix(">", u, v);
  }

  lemma AttributesAreGood()
    ensures forall key :: key in ATTRIBUTES ==> IsGoodKey(key)
  {
    assert forall i :: 0 <= i < |ATTRIBUTES| ==> IsGoodKey(ATTRIBUTES[i]);
  }

  lemma {:induction false} ShapesAreGood(forest: seq<Element>)
    requires GoodTags(forest)
    ensures GoodShapes(Shapes(forest))
  {
    if forest != [] {
      ShapesAreGood(forest[0].children);
      ShapesAreGood(forest[1..]);
      ListedComesFromKeys(forest[0].attributes, ATTRIBUTES);
    }
  }

  /** An HTML element's tag is upper-cased, so no listed attribute opens in it. */
  lemma UpperCasedTagsAreGood(tag: string)
    requires '>' !in tag && (tag != "" ==> tag[0] != '/') && forall c :: c in tag ==> !('a' <= c <= 'z')
    ensures GoodTag(tag)
  {
    AttributesAreGood();
    forall i: nat, name | name in ATTRIBUTES ensures !OpensAt(tag, i, name) {
      if i + |Opening(name)| <= |tag| {
        assert Opening(name)[1] == name[0];
        assert tag[i..i + |Opening(name)|][1] == tag[i + 1] && tag[i + 1] in tag;
      }
    }
  }

  predicate AgreeOn(m: map<string, string>, n: map<string, string>, k: string) {
    (k in m <==> k in n) && (k in m ==> m[k] == n[k])
  }

  lemma ListedHead(m: map<string, string>, n: map<string, string>, keys: seq<string>)
    requires keys != [] && keys[0] !in keys[1..]
    ensures Listed(m, keys) == Listed(n, keys)
            <==> AgreeOn(m, n, keys[0]) && Listed(m, keys[1..]) == Listed(n, keys[1..])
  {
    var k, rest := keys[0], keys[1..];
    var a, b := Listed(m, keys), Listed(n, keys);
    ListedComesFromKeys(m, rest);
    ListedComesFromKeys(n, rest);
    assert a[if k in m then 1 else 0..] == Listed(m, rest);
    assert b[if k in n then 1 else 0..] == Listed(n, rest);
    assert k in m <==> a != [] && a[0].0 == k;
    assert k in n <==> b != [] && b[0].0 == k;
  }

  /** The listed attributes agree exactly when every key on the list is
      present on both elements with one value, or on neither. */
  lemma {:induction false} ListedIsFaithful(m: map<string, string>, n: map<string, string>, keys: seq<string>)
    requires forall i, j :: 0 <= i < j < |keys| ==> keys[i] != keys[j]
    ensures Listed(m, keys) == Listed(n, keys) <==> forall k :: k in keys ==> AgreeOn(m, n, k)
  {
    if keys != [] {
      var rest := keys[1..];
      assert forall i :: 0 <= i < |rest| ==> rest[i] == keys[i + 1];
      ListedIsFaithful(m, n, rest);
      ListedHead(m, n, keys);
      assert forall k :: k in keys <==> k == keys[0] || k in rest;
    }
  }

  // ---- What two forests with one text have in common ----

  /** Alike in tags, in the listed attributes, in what is below and in order, the
      skipped elements, and all below them, left out. */
  ghost predicate Alike(a: seq<Element>, b: seq<Element>)
    decreases a, b
  {
    if a != [] && a[0].tag in ["SCRIPT", "STYLE", "NOSCRIPT", "TEMPLATE"] then Alike(a[1..], b)
    else if b != [] && b[0].tag in ["SCRIPT", "STYLE", "NOSCRIPT", "TEMPLATE"] then Alike(a, b[1..])
    else if a == [] || b == [] then a == b
    else
      && a[0].tag == b[0].tag
      && AgreeOnListed(a[0].attributes, b[0].attributes)
      && Alike(a[0].children, b[0].children) && Alike(a[1..], b[1..])
  }

  ghost predicate AgreeOnListed(m: map<string, string>, n: map<string, string>) {
    var listed := ["role", "href", "type", "disabled", "hidden", "aria-hidden", "aria-expanded", "aria-disabled",
                   "aria-checked", "aria-selected", "aria-busy"];
    forall k :: k in listed ==> AgreeOn(m, n, k)
  }

  lemma ListedAgrees(m: map<string, string>, n: map<string, string>)
    ensures Listed(m, ATTRIBUTES) == Listed(n, ATTRIBUTES) <==> AgreeOnListed(m, n)
  {
    ListedIsFaithful(m, n, ATTRIBUTES);
  }

  lemma HeadsAlike(a: Shape, b: Shape, rest: seq<Shape>, others: seq<Shape>)
    ensures [a] + rest == [b] + others <==> a == b && rest == others
  {
    assert ([a] + rest)[0] == a && ([a] + rest)[1..] == rest && ([b] + others)[0] == b && ([b] + others)[1..] == others;
  }

  lemma {:induction false} ShapesAreAlike(a: seq<Element>, b: seq<Element>)
    ensures Shapes(a) == Shapes(b) <==> Alike(a, b)
    decreases a, b
  {
    if a != [] && a[0].tag in SKIPPED {
      ShapesAreAlike(a[1..], b);
      assert Shapes(a) == Shapes(a[1..]);
    } else if b != [] && b[0].tag in SKIPPED {
      ShapesAreAlike(a, b[1..]);
      assert Shapes(b) == Shapes(b[1..]);
    } else if a != [] && b != [] {
      ShapesAreAlike(a[0].children, b[0].children);
      ShapesAreAlike(a[1..], b[1..]);
      ListedAgrees(a[0].attributes, b[0].attributes);
      HeadsAlike(ShapeOf(a[0])[0], ShapeOf(b[0])[0], Shapes(a[1..]), Shapes(b[1..]));
    }
  }

  /** Equal texts come exactly from forests alike in everything recorded. */
  lemma DomTextIsInjective(a: seq<Element>, b: seq<Element>)
    requires GoodTags(a) && GoodTags(b)
    ensures Text(Shapes(a)) == Text(Shapes(b)) <==> Alike(a, b)
  {
    ShapesAreGood(a);
    ShapesAreGood(b);
    ShapesAreAlike(a, b);
    if Text(Shapes(a)) == Text(Shapes(b)) {
      TextCuts(Shapes(a), Shapes(b), "", "");
    }
  }

  /** The count is that of the elements, skipped ones and all below them left out. */
  lemma SizeCounts(el: Element, rest: seq<Element>)
    ensures Size(Shapes([])) == 0
    ensures Size(Shapes([el] + rest)) ==
            Size(Shapes(rest))
            + (if el.tag in ["SCRIPT", "STYLE", "NOSCRIPT", "TEMPLATE"] then 0 else 1 + Size(Shapes(el.children)))
  {
    assert ([el] + rest)[0] == el && ([el] + rest)[1..] == rest;
    PiecesOfFirst(ShapeOf(el), Shapes(rest));
    SingleShape(el);
    if el.tag !in SKIPPED {
      OneShape(el);
    }
  }

  lemma {:induction false} ListedComesFromKeys(m: map<string, string>, keys: seq<string>)
    ensures forall i :: 0 <= i < |Listed(m, keys)| ==> Listed(m, keys)[i].0 in keys
  {
    if keys != [] {
      ListedComesFromKeys(m, keys[1..]);
      assert forall k :: k in keys[1..] ==> k in keys;
      assert keys[0] in keys;
    }
  }

  // ---- A tag in which an attribute seems to open ----

  /** Plain text: written in a literal as it is. */
  predicate IsPlain(s: string) {
    forall i :: 0 <= i < |s| ==> s[i] != '\"' && s[i] != '\\' && s[i] as int >= 0x20
  }

  lemma {:induction false} PlainIsWrittenAsIs(s: string)
    requires IsPlain(s)
    ensures Escape(s) == s
  {
    if s != "" {
      PlainIsWrittenAsIs(s[1..]);
      assert s == [s[0]] + s[1..];
    }
  }

  /** The element whose tag ends in a quotation mark. */
  function Quoting(key: string): Shape {
    Shape(key + "\"", [], [])
  }

  /** The text of that element, which is also the beginning of an attribute's. */
  function Both(key: string): string {
    "<" + (key + ("\"" + (">" + ("</" + (key + ("\"" + ">"))))))
  }

  lemma QuotingWrites(key: string, rest: seq<Shape>, after: string)
    ensures Write([Quoting(key)] + rest, after) == Both(key) + Write(rest, after)
  {
    var tail := Write(rest, after);
    assert ([Quoting(key)] + rest)[1..] == rest;
    Joins(key, tail);
    TagJoins(key, ">" + tail);
    TagJoins(key, ">" + ("</" + ((key + "\"") + (">" + tail))));
  }

  lemma TagJoins(key: string, rest: string)
    ensures (key + "\"") + rest == key + ("\"" + rest)
  {
  }

  lemma Joins(key: string, tail: string)
    ensures Both(key) + tail
         == "<" + (key + ("\"" + (">" + ("</" + (key + ("\"" + (">" + tail)))))))
  {
    assert ("\"" + ">") + tail == "\"" + (">" + tail);
    assert (key + ("\"" + ">")) + tail == key + (("\"" + ">") + tail);
    assert ("</" + (key + ("\"" + ">"))) + tail == "</" + ((key + ("\"" + ">")) + tail);
    assert (">" + ("</" + (key + ("\"" + ">")))) + tail == ">" + (("</" + (key + ("\"" + ">"))) + tail);
  }

  /** An element with one attribute, whose value runs to the end of such a text. */
  function Linking(tag: string, name: string, children: seq<Shape>): Shape {
    Shape(tag, [(name, ">" + ("</" + Key(tag, name)))], children)
  }

  function Key(tag: string, name: string): string {
    tag + ("|" + (name + "="))
  }

  lemma KeyJoins(tag: string, name: string, rest: string)
    ensures tag + ("|" + (name + ("=" + rest))) == Key(tag, name) + rest
  {
    assert (name + "=") + rest == name + ("=" + rest);
    assert ("|" + (name + "=")) + rest == "|" + ((name + "=") + rest);
  }

  lemma ValueJoins(key: string, rest: string)
    ensures ("\"" + ((">" + ("</" + key)) + "\"")) + rest == "\"" + (">" + ("</" + (key + ("\"" + rest))))
  {
    assert ((">" + ("</" + key)) + "\"") + rest == (">" + ("</" + key)) + ("\"" + rest);
    assert (">" + ("</" + key)) + ("\"" + rest) == ">" + (("</" + key) + ("\"" + rest));
    assert ("</" + key) + ("\"" + rest) == "</" + (key + ("\"" + rest));
  }

  lemma OneAttributeWrites(tag: string, name: string, value: string, rest: string)
    ensures tag + WriteAttributes([(name, value)], rest) == Key(tag, name) + (Quote(value) + rest)
  {
    assert [(name, value)][1..] == [];
    assert WriteAttributes([(name, value)], rest) == "|" + (name + ("=" + (Quote(value) + rest)));
    KeyJoins(tag, name, Quote(value) + rest);
  }

  lemma ValueWrites(key: string, rest: string)
    requires IsPlain(key)
    ensures "<" + (key + (Quote(">" + ("</" + key)) + (">" + rest))) == Both(key) + rest
  {
    PlainIsWrittenAsIs(">" + ("</" + key));
    ValueJoins(key, ">" + rest);
    Joins(key, rest);
  }

  lemma LinkingWrites(tag: string, name: string, children: seq<Shape>, after: string)
    requires IsPlain(Key(tag, name))
    ensures Write([Linking(tag, name, children)], after)
         == Both(Key(tag, name)) + Write(children, "</" + (tag + (">" + after)))
  {
    var key := Key(tag, name);
    var inner := Write(children, "</" + (tag + (">" + after)));
    OneShapeWrites(Linking(tag, name, children), after);
    OneAttributeWrites(tag, name, ">" + ("</" + key), ">" + inner);
    ValueWrites(key, inner);
  }

  lemma OneShapeWrites(s: Shape, after: string)
    ensures Write([s], after)
         == "<" + (s.tag + WriteAttributes(s.listed, ">" + Write(s.children, "</" + (s.tag + (">" + after)))))
  {
    assert [s][1..] == [] && Write([], after) == after;
  }

  lemma ShapesCollide(tag: string, name: string)
    requires IsPlain(Key(tag, name))
    ensures var quoting := Quoting(Key(tag, name));
            Text([quoting, Linking(tag, name, [])]) == Text([Linking(tag, name, [quoting])])
  {
    var key := Key(tag, name);
    var end := "</" + (tag + (">" + ""));
    LinkingWrites(tag, name, [], "");
    LinkingWrites(tag, name, [Quoting(key)], "");
    assert [Quoting(key)] + [Linking(tag, name, [])] == [Quoting(key), Linking(tag, name, [])];
    QuotingWrites(key, [Linking(tag, name, [])], "");
    assert [Quoting(key)] + [] == [Quoting(key)];
    QuotingWrites(key, [], end);
  }

  lemma {:induction false} OneListed(name: string, value: string, keys: seq<string>)
    requires forall i, j :: 0 <= i < j < |keys| ==> keys[i] != keys[j]
    ensures Listed(map[name := value], keys) == if name in keys then [(name, value)] else []
  {
    if keys != [] {
      assert forall i :: 0 <= i < |keys| - 1 ==> keys[1..][i] == keys[i + 1];
      OneListed(name, value, keys[1..]);
      assert forall k :: k in keys <==> k == keys[0] || k in keys[1..];
    }
  }

  lemma {:induction false} NoneListed(keys: seq<string>)
    ensures Listed(map[], keys) == []
  {
    if keys != [] {
      NoneListed(keys[1..]);
    }
  }

  lemma KeyIsPlain(tag: string, name: string)
    requires IsPlain(tag) && name in ATTRIBUTES
    ensures IsPlain(Key(tag, name))
  {
    AttributesAreGood();
  }

  lemma QuotingTagStays(key: string)
    ensures key + "\"" !in SKIPPED
  {
    assert (key + "\"")[|key|] == '\"';
  }

  /** An element without attributes whose tag goes on to where the value of `name` would begin. */
  function QuotingElement(tag: string, name: string): Element {
    Element(Key(tag, name) + "\"", map[], [])
  }

  function LinkingElement(tag: string, name: string, children: seq<Element>): Element {
    Element(tag, map[name := ">" + ("</" + Key(tag, name))], children)
  }

  lemma QuotingElementShape(tag: string, name: string)
    ensures ShapeOf(QuotingElement(tag, name)) == [Quoting(Key(tag, name))]
  {
    QuotingTagStays(Key(tag, name));
    NoneListed(ATTRIBUTES);
  }

  lemma LinkingElementShape(tag: string, name: string, children: seq<Element>)
    requires tag !in SKIPPED && name in ATTRIBUTES
    ensures ShapeOf(LinkingElement(tag, name, children)) == [Linking(tag, name, Shapes(children))]
  {
    OneListed(name, ">" + ("</" + Key(tag, name)), ATTRIBUTES);
  }

  lemma TwoShapes(a: Element, b: Element)
    ensures Shapes([a, b]) == ShapeOf(a) + ShapeOf(b)
  {
    assert [a, b][1..] == [b];
    SingleShape(b);
  }

  lemma AttributeOpensAfter(tag: string, name: string)
    ensures OpensAt(Key(tag, name) + "\"", |tag|, name)
  {
    assert (Key(tag, name) + "\"")[|tag|..] == Opening(name);
  }

  /** Two different forests with one text, for every listed attribute and every
      plain tag: in one the element whose tag seems to open the attribute stands
      before the element that has the attribute, in the other inside it. */
  lemma QuotationMarksCollide(tag: string, name: string)
    requires tag !in SKIPPED && IsPlain(tag) && name in ATTRIBUTES
    ensures var quoting := QuotingElement(tag, name);
            var apart := Shapes([quoting, LinkingElement(tag, name, [])]);
            var within := Shapes([LinkingElement(tag, name, [quoting])]);
            Text(apart) == Text(within) && |apart| == 2 && |within| == 1
            && OpensAt(quoting.tag, |tag|, name)
  {
    var quoting := QuotingElement(tag, name);
    QuotingElementShape(tag, name);
    LinkingElementShape(tag, name, []);
    LinkingElementShape(tag, name, [quoting]);
    TwoShapes(quoting, LinkingElement(tag, name, []));
    SingleShape(quoting);
    SingleShape(LinkingElement(tag, name, [quoting]));
    assert [Quoting(Key(tag, name))] + [Linking(tag, name, [])] == [Quoting(Key(tag, name)), Linking(tag, name, [])];
    KeyIsPlain(tag, name);
    ShapesCollide(tag, name);
    AttributeOpensAfter(tag, name);
  }
}
