/** The takeover panel's landing page: which requests get it, the URL its script
    goes to, and the query that reaches the display. */
module Landing {

  import opened Wrappers
  import JsonText

  // ---- Queries as pairs ----

  /** The text between the `&`s; never empty. */
  function Split(query: string): (pairs: seq<string>)
    ensures |pairs| >= 1
    ensures forall p :: p in pairs ==> '&' !in p
  {
    if query == "" then [""]
    else
      var below := Split(query[1..]);
      if query[0] == '&' then [""] + below else [[query[0]] + below[0]] + below[1..]
  }

  function Join(pairs: seq<string>): string {
    if pairs == [] then "" else pairs[0] + Appended(pairs[1..])
  }

  function Appended(pairs: seq<string>): string {
    if pairs == [] then "" else "&" + (pairs[0] + Appended(pairs[1..]))
  }

  lemma {:induction false} SplitHead(head: string, rest: string)
    requires '&' !in head && (rest == "" || rest[0] == '&')
    ensures Split(head + rest) == [head] + (if rest == "" then [] else Split(rest[1..]))
  {
    if head == "" {
      assert head + rest == rest;
    } else {
      SplitHead(head[1..], rest);
      assert (head + rest)[1..] == head[1..] + rest;
      assert [head[0]] + head[1..] == head;
    }
  }

  /** Appending pairs to a query adds exactly those pairs at its end. */
  lemma {:induction false} SplitsIntoPairs(head: string, pairs: seq<string>)
    requires '&' !in head && forall p :: p in pairs ==> '&' !in p
    ensures Split(head + Appended(pairs)) == [head] + pairs
    decreases |pairs|
  {
    SplitHead(head, Appended(pairs));
    if pairs != [] {
      var first, others := pairs[0], pairs[1..];
      assert first in pairs && forall p :: p in others ==> p in pairs;
      SplitsIntoPairs(first, others);
      assert Appended(pairs)[1..] == first + Appended(others);
      assert [first] + others == pairs;
    }
  }

  lemma JoinSplits(pairs: seq<string>)
    requires pairs != [] && forall p :: p in pairs ==> '&' !in p
    ensures Split(Join(pairs)) == pairs
  {
    SplitsIntoPairs(pairs[0], pairs[1..]);
  }

  predicate StartsWith(s: string, prefix: string) {
    |prefix| <= |s| && s[..|prefix|] == prefix
  }

  function Filter(keep: string -> bool, pairs: seq<string>): (kept: seq<string>)
    ensures forall p :: p in kept <==> p in pairs && keep(p)
  {
    if pairs == [] then []
    else if keep(pairs[0]) then [pairs[0]] + Filter(keep, pairs[1..])
    else Filter(keep, pairs[1..])
  }

  lemma Regroups<T>(a: seq<T>, b: seq<T>, c: seq<T>)
    ensures (a + b) + c == a + (b + c)
  {
  }

  lemma {:induction false} FilterJoins(keep: string -> bool, a: seq<string>, b: seq<string>)
    ensures Filter(keep, a + b) == Filter(keep, a) + Filter(keep, b)
  {
    if a == [] {
      assert a + b == b;
    } else {
      FilterJoins(keep, a[1..], b);
      assert (a + b)[1..] == a[1..] + b;
      Regroups([a[0]], Filter(keep, a[1..]), Filter(keep, b));
    }
  }

  lemma {:induction false} AppendedJoins(a: seq<string>, b: seq<string>)
    ensures Appended(a + b) == Appended(a) + Appended(b)
  {
    if a == [] {
      assert a + b == b;
    } else {
      AppendedJoins(a[1..], b);
      assert (a + b)[1..] == a[1..] + b;
      Regroups(a[0], Appended(a[1..]), Appended(b));
      Regroups("&", a[0] + Appended(a[1..]), Appended(b));
    }
  }

  // ---- What the landing page seeds ----

  /** The one-time handoff, as the landing page and the display leg drop it. */
  predicate IsHandoffPair(pair: string) {
    StartsWith(pair, "handoff_secret=") || StartsWith(pair, "handoff=")
  }

  predicate IsCarriedOver(pair: string) {
    pair != "" && !StartsWith(pair, "path=") && !StartsWith(pair, "resize=") && !IsHandoffPair(pair)
  }

  /** A percentage mapped to one of ten tiers. */
  function Tier(percent: nat): (tier: nat)
    ensures tier <= 9
  {
    ((if percent < 100 then percent else 100) * 9 + 50) / 100
  }

  function Digit(n: nat): string
    requires n <= 9
  {
    ["0123456789"[n]]
  }

  function QualityPairs(percent: nat): seq<string> {
    var level := Digit(Tier(percent));
    ["quality=" + level, "dynamic_quality_min=" + level, "dynamic_quality_max=9",
     "jpeg_video_quality=" + level, "webp_video_quality=" + level,
     "max_video_resolution_x=3840", "max_video_resolution_y=2160"]
  }

  function KasmvncQualityParams(percent: nat): string {
    var level := Digit(Tier(percent));
    "&" + ("quality=" + level + ("&" + ("dynamic_quality_min=" + level + ("&" + ("dynamic_quality_max=9"
    + ("&" + ("jpeg_video_quality=" + level + ("&" + ("webp_video_quality=" + level
    + ("&" + ("max_video_resolution_x=3840" + ("&" + ("max_video_resolution_y=2160" + "")))))))))))))
  }

  lemma AppendedOne(pair: string, rest: seq<string>)
    ensures Appended([pair] + rest) == "&" + (pair + Appended(rest))
  {
  }

  lemma QualityIsPairs(percent: nat)
    ensures KasmvncQualityParams(percent) == Appended(QualityPairs(percent))
  {
    var q := QualityPairs(percent);
    AppendedOne(q[6], []);
    AppendedOne(q[5], [q[6]]);
    AppendedOne(q[4], [q[5], q[6]]);
    AppendedOne(q[3], [q[4], q[5], q[6]]);
    AppendedOne(q[2], [q[3], q[4], q[5], q[6]]);
    AppendedOne(q[1], [q[2], q[3], q[4], q[5], q[6]]);
    AppendedOne(q[0], [q[1], q[2], q[3], q[4], q[5], q[6]]);
  }

  function Seeded(resize: string, percent: nat, query: string): seq<string> {
    ["resize=" + resize] + QualityPairs(percent) + Filter(IsCarriedOver, Split(query))
  }

  lemma OneMorePair(seeded: seq<string>, pairs: seq<string>, i: nat)
    requires i < |pairs|
    ensures Appended(seeded + Filter(IsCarriedOver, pairs[..i + 1]))
         == Appended(seeded + Filter(IsCarriedOver, pairs[..i]))
          + (if IsCarriedOver(pairs[i]) then "&" + pairs[i] else "")
  {
    var before, pair := Filter(IsCarriedOver, pairs[..i]), pairs[i];
    assert pairs[..i + 1] == pairs[..i] + [pair];
    FilterJoins(IsCarriedOver, pairs[..i], [pair]);
    assert [pair][1..] == [];
    if !IsCarriedOver(pair) {
      assert Filter(IsCarriedOver, [pair]) == [] && before + [] == before;
    } else {
      assert Filter(IsCarriedOver, [pair]) == [pair];
      Regroups(seeded, before, [pair]);
      AppendedJoins(seeded + before, [pair]);
      AppendedOne(pair, []);
    }
  }

  /** The tail of the URL the script goes to. */
  method LandingSettings(resize: string, percent: nat, query: string) returns (settings: string)
    ensures settings == Appended(Seeded(resize, percent, query))
  {
    settings := "&" + ("resize=" + resize + KasmvncQualityParams(percent));
    ghost var seeded := ["resize=" + resize] + QualityPairs(percent);
    QualityIsPairs(percent);
    AppendedOne("resize=" + resize, QualityPairs(percent));
    var pairs, i := Split(query), 0;
    assert seeded + Filter(IsCarriedOver, pairs[..0]) == seeded;
    while i < |pairs|
      invariant 0 <= i <= |pairs|
      invariant settings == Appended(seeded + Filter(IsCarriedOver, pairs[..i]))
    {
      var pair := pairs[i];
      OneMorePair(seeded, pairs, i);
      if !(pair == "" || StartsWith(pair, "path=") || StartsWith(pair, "resize=")
           || StartsWith(pair, "handoff_secret=") || StartsWith(pair, "handoff=")) {
        settings := settings + ("&" + pair);
      }
      i := i + 1;
    }
    assert pairs[..i] == pairs;
  }

  // ---- The script's string literal ----

  function ReplaceLess(s: string): (r: string)
    ensures '<' !in r
  {
    if s == "" then ""
    else if s[0] == '<' then "\\u003c" + ReplaceLess(s[1..])
    else [s[0]] + ReplaceLess(s[1..])
  }

  /** A string literal of the page's script. */
  function JsString(value: string): string {
    ReplaceLess(JsonText.Quote(value))
  }

  lemma {:induction false} ReplaceJoins(a: string, b: string)
    ensures ReplaceLess(a + b) == ReplaceLess(a) + ReplaceLess(b)
  {
    if a == "" {
      assert a + b == b;
    } else {
      ReplaceJoins(a[1..], b);
      assert (a + b)[1..] == a[1..] + b;
      Regroups(if a[0] == '<' then "\\u003c" else [a[0]], ReplaceLess(a[1..]), ReplaceLess(b));
    }
  }

  lemma {:induction false} ReplaceLeaves(s: string)
    requires '<' !in s
    ensures ReplaceLess(s) == s
  {
    if s != "" {
      ReplaceLeaves(s[1..]);
      assert s == [s[0]] + s[1..];
    }
  }

  lemma LessReads(tail: string)
    ensures JsonText.Escaped('<') == ['<'] && ReplaceLess(['<']) == "\\u003c"
    ensures JsonText.ReadChar("\\u003c" + tail) == Some(('<', tail))
  {
    assert ['<'][1..] == [];
    var s := "\\u003c" + tail;
    assert s[2..6] == "003c" && s[6..] == tail;
    assert JsonText.HexChar("003c") == Some('<');
  }

  lemma EscapedReads(c: char, tail: string)
    ensures var unit := ReplaceLess(JsonText.Escaped(c));
            unit != "" && unit[0] != '\"' && JsonText.ReadChar(unit + tail) == Some((c, tail))
  {
    if c == '<' {
      LessReads(tail);
    } else {
      JsonText.ReadsEscaped(c, tail);
      EscapedHasNoLess(c);
      ReplaceLeaves(JsonText.Escaped(c));
    }
  }

  lemma EscapedHasNoLess(c: char)
    requires c != '<'
    ensures '<' !in JsonText.Escaped(c)
  {
  }

  lemma {:induction false} InsideReads(value: string, after: string)
    ensures JsonText.ReadInside(ReplaceLess(JsonText.Escape(value)) + ("\"" + after)) == Some((value, after))
  {
    var closing := "\"" + after;
    if value == "" {
      assert JsonText.Escape(value) == "" && "" + closing == closing && closing[1..] == after;
    } else {
      var unit, below := ReplaceLess(JsonText.Escaped(value[0])), ReplaceLess(JsonText.Escape(value[1..]));
      InsideReads(value[1..], after);
      EscapedReads(value[0], below + closing);
      ReplaceJoins(JsonText.Escaped(value[0]), JsonText.Escape(value[1..]));
      Regroups(unit, below, closing);
      JsonText.ReadInsideStep(unit, value[0], below + closing, value[1..], after);
      assert [value[0]] + value[1..] == value;
    }
  }

  /** The literal stands for the value it was written from, and nothing in it
      can open or close an element. */
  lemma JsStringReadsBack(value: string, after: string)
    ensures JsonText.ReadLiteral(JsString(value) + after) == Some((value, after))
    ensures '<' !in JsString(value)
  {
    var inside := ReplaceLess(JsonText.Escape(value));
    ReplaceJoins("\"", JsonText.Escape(value) + "\"");
    ReplaceJoins(JsonText.Escape(value), "\"");
    ReplaceLeaves("\"");
    Regroups(inside, "\"", after);
    Regroups("\"", inside + "\"", after);
    InsideReads(value, after);
  }

  // ---- Which requests are landings, and what the others become ----

  datatype Reply =
    | Bootstrap(literal: string)
    | Forwarded(pathAndQuery: string)

  datatype Display = Display(windowManager: bool, percent: nat)

  function Resize(display: Display): string {
    if display.windowManager then "remote" else "scale"
  }

  predicate PassesLandingTest(display: Display, query: string) {
    (exists p :: p in Split(query) && StartsWith(p, "path=")) && "resize=" + Resize(display) in Split(query)
  }

  predicate IsLanding(path: string) {
    path == "/takeover/panel" || path == "/takeover/panel/"
  }

  function QueryText(query: Option<string>): string {
    match query
    case Some(q) => q
    case None => ""
  }

  predicate IsForwardedPair(pair: string) {
    !IsHandoffPair(pair) && !StartsWith(pair, "token_secret=")
  }

  function UpstreamPath(path: string): (r: string)
    ensures r != "" && r[0] == '/'
  {
    var prefix := "/takeover/panel";
    var suffix := if StartsWith(path, prefix) && |path| > |prefix| then path[|prefix|..] else "/";
    if suffix[0] == '/' then suffix else "/" + suffix
  }

  /** The query that goes on to the display, if one is left. */
  function UpstreamQuery(query: string): Option<string> {
    var kept := Filter(IsForwardedPair, Split(query));
    if kept == [] then None else Some(Join(kept))
  }

  function UpstreamPathAndQuery(path: string, query: Option<string>): string {
    match query
    case None => UpstreamPath(path)
    case Some(q) =>
      match UpstreamQuery(q)
      case None => UpstreamPath(path)
      case Some(left) => UpstreamPath(path) + ("?" + left)
  }

  predicate NeedsBootstrap(display: Display, path: string, query: Option<string>, isSocket: bool) {
    IsLanding(path) && !isSocket && !PassesLandingTest(display, QueryText(query))
  }

  /** The request is for the panel's page itself, and its query lacks a path or the preferred resize. */
  ghost predicate LacksSettings(display: Display, path: string, query: Option<string>, isSocket: bool) {
    var pairs := Split(match query { case Some(q) => q case None => "" });
    (path == "/takeover/panel" || path == "/takeover/panel/") && !isSocket
    && !((exists value: string :: "path=" + value in pairs)
         && (if display.windowManager then "resize=remote" else "resize=scale") in pairs)
  }

  lemma StartsWithReads(s: string, prefix: string)
    ensures StartsWith(s, prefix) <==> exists rest: string :: s == prefix + rest
  {
    if StartsWith(s, prefix) {
      assert s == prefix + s[|prefix|..];
    }
  }

  lemma BootstrapReads(display: Display, path: string, query: Option<string>, isSocket: bool)
    ensures NeedsBootstrap(display, path, query, isSocket) <==> LacksSettings(display, path, query, isSocket)
    ensures Resize(display) == if display.windowManager then "remote" else "scale"
  {
    forall p: string ensures StartsWith(p, "path=") <==> exists value: string :: p == "path=" + value {
      StartsWithReads(p, "path=");
    }
    assert "resize=" + "remote" == "resize=remote" && "resize=" + "scale" == "resize=scale";
  }

  /** Which path reaches the display: what follows the panel's own, made to begin with a slash. */
  lemma UpstreamPathReads(path: string, rest: string)
    ensures path == "/takeover/panel" + rest ==>
              UpstreamPath(path) == if rest == "" then "/" else if rest[0] == '/' then rest else "/" + rest
    ensures (forall more: string :: path != "/takeover/panel" + more) ==> UpstreamPath(path) == "/"
  {
    StartsWithReads(path, "/takeover/panel");
    if path == "/takeover/panel" + rest {
      assert path[|"/takeover/panel"|..] == rest;
    }
  }

  /** Of the old query a landing page carries over every pair but empty ones,
      the path, the resize and the handoff. */
  lemma CarriedExactly(query: string, p: string)
    ensures p in Filter(IsCarriedOver, Split(query)) <==>
            p in Split(query) && p != ""
            && forall value: string ::
                 p != "path=" + value && p != "resize=" + value
                 && p != "handoff_secret=" + value && p != "handoff=" + value
  {
    StartsWithReads(p, "path=");
    StartsWithReads(p, "resize=");
    StartsWithReads(p, "handoff_secret=");
    StartsWithReads(p, "handoff=");
  }

  /** Ten tiers, the nearest to nine hundredths of the percentage, halves up. */
  lemma TierIsNearest(percent: nat)
    ensures percent <= 100 ==> -50 <= 9 * percent - 100 * Tier(percent) < 50
    ensures percent >= 100 ==> Tier(percent) == 9
  {
  }

  method ProxyKasmvnc(display: Display, path: string, query: Option<string>, isSocket: bool) returns (reply: Reply)
    ensures reply.Bootstrap? <==> LacksSettings(display, path, query, isSocket)
    ensures reply == if NeedsBootstrap(display, path, query, isSocket)
                     then Bootstrap(JsString(Appended(Seeded(Resize(display), display.percent, QueryText(query)))))
                     else Forwarded(UpstreamPathAndQuery(path, query))
  {
    BootstrapReads(display, path, query, isSocket);
    var q := QueryText(query);
    var hasPath := exists p :: p in Split(q) && StartsWith(p, "path=");
    var resizeOk := "resize=" + Resize(display) in Split(q);
    if IsLanding(path) && !isSocket && !(hasPath && resizeOk) {
      var settings := LandingSettings(Resize(display), display.percent, q);
      reply := Bootstrap(JsString(settings));
    } else {
      reply := Forwarded(UpstreamPathAndQuery(path, query));
    }
  }

  // ---- The page's script ----

  function WithSlash(pathname: string): string {
    if pathname != "" && pathname[|pathname| - 1] == '/' then pathname else pathname + "/"
  }

  function WithoutLeadingSlashes(s: string): string {
    if s != "" && s[0] == '/' then WithoutLeadingSlashes(s[1..]) else s
  }

  function Websockify(pathname: string): string {
    WithoutLeadingSlashes(WithSlash(pathname)) + "websockify"
  }

  lemma {:induction false} StripsSlashes(slashes: string, rest: string)
    requires (forall c :: c in slashes ==> c == '/') && (rest != "" ==> rest[0] != '/')
    ensures WithoutLeadingSlashes(slashes + rest) == rest
  {
    if slashes == "" {
      assert slashes + rest == rest;
    } else {
      assert slashes[0] in slashes && forall c :: c in slashes[1..] ==> c in slashes;
      assert (slashes + rest)[1..] == slashes[1..] + rest;
      StripsSlashes(slashes[1..], rest);
    }
  }

  /** The socket's path: the page's own without its leading slashes, ended by a slash unless nothing is left. */
  lemma WebsockifyReads(slashes: string, rest: string)
    requires (forall c :: c in slashes ==> c == '/') && (rest != "" ==> rest[0] != '/')
    ensures Websockify(slashes + rest) ==
            (if rest == "" then "" else if rest[|rest| - 1] == '/' then rest else rest + "/") + "websockify"
  {
    var pathname := slashes + rest;
    if rest == "" {
      var all := if slashes == "" then "/" else slashes;
      assert forall c :: c in all ==> c == '/';
      assert pathname == slashes && (slashes != "" ==> slashes[|slashes| - 1] in slashes);
      assert WithSlash(pathname) == all + "";
      StripsSlashes(all, "");
    } else {
      var ended := if rest[|rest| - 1] == '/' then rest else rest + "/";
      assert pathname[|pathname| - 1] == rest[|rest| - 1];
      assert WithSlash(pathname) == slashes + ended;
      StripsSlashes(slashes, ended);
    }
  }

  /** The query of the URL that the page's script goes to from `pathname`. */
  function ScriptQuery(encode: string -> string, pathname: string, literal: string): string {
    match JsonText.ReadLiteral(literal)
    case Some((settings, _)) => "path=" + encode(Websockify(pathname)) + settings
    case None => "path=" + encode(Websockify(pathname))
  }

  /** One pair, of a setting that the landing page neither drops nor reads. */
  predicate IsPlainSetting(p: string) {
    p != "" && '&' !in p && p[0] !in "prh%"
  }

  lemma SettingIsPlain(name: string, value: string)
    requires IsPlainSetting(name) && '&' !in value
    ensures IsPlainSetting(name + value)
  {
  }

  lemma TiersArePlain(level: string)
    requires '&' !in level
    ensures IsPlainSetting("quality=" + level) && IsPlainSetting("dynamic_quality_min=" + level)
    ensures IsPlainSetting("jpeg_video_quality=" + level) && IsPlainSetting("webp_video_quality=" + level)
  {
    SettingIsPlain("quality=", level);
    SettingIsPlain("dynamic_quality_min=", level);
    SettingIsPlain("jpeg_video_quality=", level);
    SettingIsPlain("webp_video_quality=", level);
  }

  lemma DigitIsPlain(n: nat)
    requires n <= 9
    ensures '&' !in Digit(n)
  {
  }

  lemma LimitsArePlain()
    ensures IsPlainSetting("dynamic_quality_max=9")
    ensures IsPlainSetting("max_video_resolution_x=3840") && IsPlainSetting("max_video_resolution_y=2160")
  {
  }

  lemma QualityIsPlain(percent: nat)
    ensures forall p :: p in QualityPairs(percent) ==> IsPlainSetting(p)
  {
    DigitIsPlain(Tier(percent));
    TiersArePlain(Digit(Tier(percent)));
    LimitsArePlain();
  }

  lemma PlainIsCarriedOver(p: string)
    ensures IsPlainSetting(p) ==> IsCarriedOver(p)
  {
  }

  /** Every pair of the URL the script goes to: the path it computed, the
      preferred resize, the quality settings, then the pairs of the old query
      that are carried over, in their order. */
  lemma BootstrapPairs(encode: string -> string, pathname: string, resize: string, percent: nat, query: string)
    requires '&' !in resize && '&' !in encode(Websockify(pathname))
    ensures Split(ScriptQuery(encode, pathname, JsString(Appended(Seeded(resize, percent, query)))))
         == ["path=" + encode(Websockify(pathname))]
          + (["resize=" + resize] + QualityPairs(percent) + Filter(IsCarriedOver, Split(query)))
  {
    var settings := Appended(Seeded(resize, percent, query));
    JsStringReadsBack(settings, "");
    assert JsString(settings) + "" == JsString(settings);
    QualityIsPlain(percent);
    SplitsIntoPairs("path=" + encode(Websockify(pathname)), Seeded(resize, percent, query));
  }

  /** The page is served at most once: the URL its script goes to passes the
      test, wherever the panel is served from, for every query it came with. */
  lemma BootstrapsAtMostOnce(encode: string -> string, pathname: string, display: Display, query: string)
    requires '&' !in encode(Websockify(pathname))
    ensures var literal := JsString(Appended(Seeded(Resize(display), display.percent, query)));
            forall path, isSocket ::
              !NeedsBootstrap(display, path, Some(ScriptQuery(encode, pathname, literal)), isSocket)
  {
    var literal := JsString(Appended(Seeded(Resize(display), display.percent, query)));
    var next := ScriptQuery(encode, pathname, literal);
    BootstrapPairs(encode, pathname, Resize(display), display.percent, query);
    var path := "path=" + encode(Websockify(pathname));
    assert Split(next)[0] == path && StartsWith(path, "path=");
    assert Split(next)[1] == "resize=" + Resize(display);
    assert PassesLandingTest(display, next);
  }

  lemma {:induction false} FilterKeepsAll(keep: string -> bool, pairs: seq<string>)
    requires forall p :: p in pairs ==> keep(p)
    ensures Filter(keep, pairs) == pairs
  {
    if pairs != [] {
      assert pairs[0] in pairs && forall p :: p in pairs[1..] ==> p in pairs;
      FilterKeepsAll(keep, pairs[1..]);
    }
  }

  lemma {:induction false} FilterDropsAll(keep: string -> bool, pairs: seq<string>)
    requires forall p :: p in pairs ==> !keep(p)
    ensures Filter(keep, pairs) == []
  {
    if pairs != [] {
      assert pairs[0] in pairs && forall p :: p in pairs[1..] ==> p in pairs;
      FilterDropsAll(keep, pairs[1..]);
    }
  }

  lemma OldPairsCarryOver(path: string, resize: string, kept: seq<string>)
    requires forall p :: p in kept ==> IsCarriedOver(p)
    ensures Filter(IsCarriedOver, ["path=" + path, "resize=" + resize] + kept) == kept
  {
    var lead := ["path=" + path, "resize=" + resize];
    assert StartsWith("path=" + path, "path=") && StartsWith("resize=" + resize, "resize=");
    FilterDropsAll(IsCarriedOver, lead);
    FilterKeepsAll(IsCarriedOver, kept);
    FilterJoins(IsCarriedOver, lead, kept);
  }

  /** A later bootstrap, after the preferred resize or the quality changed, puts
      its own settings ahead of the earlier quality settings, which stay. */
  lemma SecondBootstrap(encode: string -> string, pathname: string, resize: string, percent: nat, query: string,
                        laterResize: string, laterPercent: nat)
    requires '&' !in resize && '&' !in encode(Websockify(pathname))
    ensures Seeded(laterResize, laterPercent,
                   ScriptQuery(encode, pathname, JsString(Appended(Seeded(resize, percent, query)))))
         == ["resize=" + laterResize] + QualityPairs(laterPercent)
          + (QualityPairs(percent) + Filter(IsCarriedOver, Split(query)))
  {
    BootstrapPairs(encode, pathname, resize, percent, query);
    SeededAgain(encode(Websockify(pathname)), resize, percent, query,
                ScriptQuery(encode, pathname, JsString(Appended(Seeded(resize, percent, query)))));
  }

  lemma SeededAgain(path: string, resize: string, percent: nat, query: string, again: string)
    requires Split(again)
          == ["path=" + path] + (["resize=" + resize] + QualityPairs(percent) + Filter(IsCarriedOver, Split(query)))
    ensures Filter(IsCarriedOver, Split(again)) == QualityPairs(percent) + Filter(IsCarriedOver, Split(query))
  {
    var kept := QualityPairs(percent) + Filter(IsCarriedOver, Split(query));
    assert Split(again) == ["path=" + path, "resize=" + resize] + kept;
    QualityIsPlain(percent);
    forall p | p in kept ensures IsCarriedOver(p) {
      PlainIsCarriedOver(p);
    }
    OldPairsCarryOver(path, resize, kept);
  }

  // ---- What reaches the display ----

  lemma {:induction false} JoinOfSplit(query: string)
    ensures Join(Split(query)) == query
  {
    if query != "" {
      JoinOfSplit(query[1..]);
      var below := Split(query[1..]);
      assert below == [below[0]] + below[1..];
      assert query == [query[0]] + query[1..];
      if query[0] == '&' {
        assert ([""] + below)[1..] == below;
        AppendedOne(below[0], below[1..]);
      } else {
        var pairs := [[query[0]] + below[0]] + below[1..];
        assert pairs[1..] == below[1..];
        Regroups([query[0]], below[0], Appended(below[1..]));
      }
    }
  }

  /** The pairs that the display's query splits into. */
  function Sent(query: string): seq<string> {
    match UpstreamQuery(query)
    case None => []
    case Some(q) => Split(q)
  }

  /** Which pairs those are. */
  lemma SentExactly(query: string, p: string)
    ensures p in Sent(query) <==>
            p in Split(query)
            && forall value: string ::
                 p != "handoff_secret=" + value && p != "handoff=" + value && p != "token_secret=" + value
  {
    UpstreamPairs("", query);
    StartsWithReads(p, "handoff_secret=");
    StartsWithReads(p, "handoff=");
    StartsWithReads(p, "token_secret=");
  }

  /** The display receives the pairs that do not spell out the name of one of
      this host's credentials, in order; without such a pair the query is not changed. */
  lemma UpstreamPairs(path: string, query: string)
    ensures Sent(query) == Filter(IsForwardedPair, Split(query))
    ensures (forall p :: p in Split(query) ==> IsForwardedPair(p))
            ==> UpstreamPathAndQuery(path, Some(query)) == UpstreamPath(path) + ("?" + query)
  {
    var kept := Filter(IsForwardedPair, Split(query));
    if kept != [] {
      JoinSplits(kept);
    }
    if forall p :: p in Split(query) ==> IsForwardedPair(p) {
      FilterKeepsAll(IsForwardedPair, Split(query));
      JoinOfSplit(query);
    }
  }

  // ---- The handoff in the new URL ----

  function Name(pair: string): string {
    if pair == "" || pair[0] == '=' then "" else [pair[0]] + Name(pair[1..])
  }

  /** Form decoding of a name, as the code of each byte. */
  function FormDecoded(s: string): seq<int>
    decreases |s|
  {
    if s == "" then []
    else if s[0] == '+' then [0x20] + FormDecoded(s[1..])
    else if s[0] == '%' && |s| >= 3 && JsonText.HexValue(s[1]).Some? && JsonText.HexValue(s[2]).Some?
    then [JsonText.HexValue(s[1]).value * 16 + JsonText.HexValue(s[2]).value] + FormDecoded(s[3..])
    else [s[0] as int] + FormDecoded(s[1..])
  }

  /** A plus is a space, `%` with two hexadecimal digits their value, anything else itself. */
  lemma FormReads(c: char, hi: char, lo: char, j: nat, k: nat, rest: string)
    ensures FormDecoded("+" + rest) == [0x20] + FormDecoded(rest)
    ensures c != '+' && c != '%' ==> FormDecoded([c] + rest) == [c as int] + FormDecoded(rest)
    ensures JsonText.HexValue(hi) == Some(j) && JsonText.HexValue(lo) == Some(k) ==>
              FormDecoded(['%', hi, lo] + rest) == [16 * j + k] + FormDecoded(rest)
    ensures FormDecoded("") == []
  {
    assert ("+" + rest)[1..] == rest && ([c] + rest)[1..] == rest && (['%', hi, lo] + rest)[3..] == rest;
  }

  function Codes(s: string): seq<int> {
    seq(|s|, i requires 0 <= i < |s| => s[i] as int)
  }

  /** The pair the host reads a handoff from. */
  predicate CarriesHandoff(pair: string) {
    pair != "" && FormDecoded(Name(pair)) in [Codes("handoff_secret"), Codes("handoff")]
  }

  lemma HandoffInitial(pair: string)
    ensures CarriesHandoff(pair) ==> pair[0] in "h%"
  {
    if CarriesHandoff(pair) {
      assert FormDecoded(Name(pair))[0] == 'h' as int;
    }
  }

  lemma HandoffPairsCarry(pair: string)
    ensures IsHandoffPair(pair) ==> CarriesHandoff(pair)
  {
    if StartsWith(pair, "handoff_secret=") {
      NameIs(pair, "handoff_secret");
      PlainDecodes("handoff_secret");
    } else if StartsWith(pair, "handoff=") {
      NameIs(pair, "handoff");
      PlainDecodes("handoff");
    }
  }

  lemma {:induction false} NameIs(pair: string, name: string)
    requires |name| < |pair| && pair[..|name|] == name && pair[|name|] == '=' && '=' !in name
    ensures Name(pair) == name
  {
    if name != "" {
      assert pair[0] == name[0] && pair[1..][..|name| - 1] == name[1..];
      NameIs(pair[1..], name[1..]);
    }
  }

  lemma {:induction false} PlainDecodes(s: string)
    requires '%' !in s && '+' !in s
    ensures FormDecoded(s) == Codes(s)
  {
    if s != "" {
      PlainDecodes(s[1..]);
    }
  }

  lemma OtherInitial(p: string)
    requires p != "" && p[0] !in "h%"
    ensures !IsHandoffPair(p) && !CarriesHandoff(p)
  {
    HandoffInitial(p);
  }

  lemma HandoffsOfNext(path: string, resize: string, percent: nat, kept: seq<string>, p: string)
    requires p in ["path=" + path] + (["resize=" + resize] + QualityPairs(percent) + kept)
    ensures p in kept || (!IsHandoffPair(p) && !CarriesHandoff(p))
  {
    QualityIsPlain(percent);
    if p == "path=" + path || p == "resize=" + resize || p in QualityPairs(percent) {
      assert p == "resize=" + resize ==> p[0] == 'r';
      OtherInitial(p);
    }
  }

  lemma CarriedOver(p: string)
    requires CarriesHandoff(p) && !IsHandoffPair(p)
    ensures IsCarriedOver(p)
  {
    HandoffInitial(p);
  }

  /** When the URL the script goes to still carries a handoff: exactly when the
      old query held one whose name is not spelled out and followed by `=`. No
      pair that is spelled that way is left. */
  lemma HandoffRemains(encode: string -> string, pathname: string, resize: string, percent: nat, query: string)
    requires '&' !in resize && '&' !in encode(Websockify(pathname))
    ensures var next := ScriptQuery(encode, pathname, JsString(Appended(Seeded(resize, percent, query))));
            ((exists p :: p in Split(next) && CarriesHandoff(p))
             <==> exists p :: p in Split(query) && CarriesHandoff(p) && !IsHandoffPair(p))
            && forall p :: p in Split(next) ==> !IsHandoffPair(p)
  {
    BootstrapPairs(encode, pathname, resize, percent, query);
    HandoffRemainsIn(encode(Websockify(pathname)), resize, percent, query,
                     ScriptQuery(encode, pathname, JsString(Appended(Seeded(resize, percent, query)))));
  }

  lemma HandoffRemainsIn(path: string, resize: string, percent: nat, query: string, next: string)
    requires Split(next)
          == ["path=" + path] + (["resize=" + resize] + QualityPairs(percent) + Filter(IsCarriedOver, Split(query)))
    ensures (exists p :: p in Split(next) && CarriesHandoff(p))
       <==> (exists p :: p in Split(query) && CarriesHandoff(p) && !IsHandoffPair(p))
    ensures forall p :: p in Split(next) ==> !IsHandoffPair(p)
  {
    var kept := Filter(IsCarriedOver, Split(query));
    forall p | p in Split(next)
      ensures !IsHandoffPair(p)
      ensures CarriesHandoff(p) ==> p in Split(query)
    {
      HandoffsOfNext(path, resize, percent, kept, p);
    }
    forall p | p in Split(query) && CarriesHandoff(p) && !IsHandoffPair(p) ensures p in Split(next) {
      CarriedOver(p);
      assert p in kept;
    }
  }

  // ---- Credentials that reach the display ----

  /** A pair this host would take for one of its own credentials. */
  predicate CarriesCredential(pair: string) {
    CarriesHandoff(pair) || (pair != "" && FormDecoded(Name(pair)) == Codes("token_secret"))
  }

  lemma DroppedPairsCarry(pair: string)
    ensures !IsForwardedPair(pair) ==> CarriesCredential(pair)
  {
    HandoffPairsCarry(pair);
    if StartsWith(pair, "token_secret=") {
      NameIs(pair, "token_secret");
      PlainDecodes("token_secret");
    }
  }

  /** When a credential reaches the display: exactly when the query held one
      whose name is not spelled out and followed by `=`. Whatever is dropped
      was a credential. */
  lemma CredentialsForwarded(query: string)
    ensures (exists p :: p in Sent(query) && CarriesCredential(p))
       <==> (exists p :: p in Split(query) && CarriesCredential(p) && IsForwardedPair(p))
    ensures forall p :: p in Split(query) && p !in Sent(query) ==> CarriesCredential(p)
    ensures forall p :: p in Sent(query) ==> p in Split(query) && IsForwardedPair(p)
  {
    UpstreamPairs("", query);
    forall p | p in Split(query) && p !in Sent(query) ensures CarriesCredential(p) {
      DroppedPairsCarry(p);
    }
  }

  // ---- Such pairs ----

  lemma {:induction false} WholeName(pair: string)
    requires '=' !in pair
    ensures Name(pair) == pair
  {
    if pair != "" {
      WholeName(pair[1..]);
      assert [pair[0]] + pair[1..] == pair;
    }
  }

  lemma EscapedNameDecodes(hi: char, lo: char, name: string)
    requires JsonText.HexValue(hi).Some? && JsonText.HexValue(lo).Some? && '%' !in name && '+' !in name
    ensures FormDecoded(['%', hi, lo] + name)
         == [JsonText.HexValue(hi).value * 16 + JsonText.HexValue(lo).value] + Codes(name)
  {
    var s := ['%', hi, lo] + name;
    PlainDecodes(name);
    assert s[3..] == name;
  }

  /** A name whose first character is written as an escape is read like the plain one. */
  lemma EscapedInitial(hi: char, lo: char, name: string, value: string)
    requires JsonText.HexValue(hi).Some? && JsonText.HexValue(lo).Some?
    requires '%' !in name && '+' !in name && '=' !in name
    ensures FormDecoded(Name(['%', hi, lo] + name + ("=" + value)))
         == [JsonText.HexValue(hi).value * 16 + JsonText.HexValue(lo).value] + Codes(name)
  {
    var whole := ['%', hi, lo] + name;
    assert '=' !in whole;
    NameIs(whole + ("=" + value), whole);
    EscapedNameDecodes(hi, lo, name);
  }

  lemma CodesJoin(c: char, s: string)
    ensures [c as int] + Codes(s) == Codes([c] + s)
  {
  }

  lemma OnePair(query: string)
    requires '&' !in query
    ensures Split(query) == [query] && (IsForwardedPair(query) ==> Sent(query) == [query])
  {
    SplitHead(query, "");
    assert query + "" == query;
    UpstreamPairs("", query);
    if IsForwardedPair(query) {
      FilterKeepsAll(IsForwardedPair, [query]);
    }
  }

  /** A query of one pair whose name, `first` written as an escape and then
      `name`, is that of a credential: it is read as one, and it is sent on. */
  lemma EscapedPairIsSent(first: char, hi: char, lo: char, name: string, value: string)
    requires JsonText.HexValue(hi).Some? && JsonText.HexValue(lo).Some?
    requires JsonText.HexValue(hi).value * 16 + JsonText.HexValue(lo).value == first as int
    requires [first] + name in ["handoff_secret", "handoff", "token_secret"]
    requires '%' !in name && '+' !in name && '=' !in name && '&' !in name && '&' !in value
    ensures var query := ['%', hi, lo] + name + ("=" + value);
            Split(query) == [query] && Sent(query) == [query]
            && CarriesCredential(query) && ([first] + name != "token_secret" ==> CarriesHandoff(query))
  {
    var query := ['%', hi, lo] + name + ("=" + value);
    EscapedInitial(hi, lo, name, value);
    CodesJoin(first, name);
    assert query[0] == '%' && IsForwardedPair(query);
    OnePair(query);
  }

  lemma NoEqualsIsForwarded(pair: string)
    requires '=' !in pair
    ensures IsForwardedPair(pair)
  {
    if |pair| >= 8 {
      assert pair[7] != '=';
    }
    if |pair| >= 15 {
      assert pair[14] != '=';
    }
    if |pair| >= 13 {
      assert pair[12] != '=';
    }
  }

  /** A query of one name without a value is read as that credential, and sent on. */
  lemma BarePairIsSent(name: string)
    requires name in ["handoff_secret", "handoff"]
    requires '%' !in name && '+' !in name && '=' !in name && '&' !in name
    ensures Split(name) == [name] == Sent(name) && CarriesHandoff(name) && !IsHandoffPair(name)
  {
    NoEqualsIsForwarded(name);
    OnePair(name);
    WholeName(name);
    PlainDecodes(name);
  }

  const HANDOFF := "handoff"

  /** The whole query is a handoff without a value. */
  lemma HandoffWithoutValue()
    ensures Split(HANDOFF) == [HANDOFF] == Sent(HANDOFF) && CarriesHandoff(HANDOFF) && !IsHandoffPair(HANDOFF)
  {
    BarePairIsSent(HANDOFF);
  }

  const ANDOFF := "andoff"
  const OKEN_SECRET := "oken_secret"

  const ESCAPED_HANDOFF := ['%', '6', '8'] + ANDOFF + ("=" + "x")
  const ESCAPED_TOKEN := ['%', '7', '4'] + OKEN_SECRET + ("=" + "x")

  /** The whole query is a handoff with an escaped name. */
  lemma HandoffWithEscape()
    ensures Split(ESCAPED_HANDOFF) == [ESCAPED_HANDOFF] == Sent(ESCAPED_HANDOFF)
    ensures CarriesHandoff(ESCAPED_HANDOFF) && !IsHandoffPair(ESCAPED_HANDOFF)
  {
    assert ['h'] + ANDOFF == HANDOFF;
    EscapedPairIsSent('h', '6', '8', ANDOFF, "x");
    NotSpelledOut(ESCAPED_HANDOFF);
  }

  /** The whole query is a host token with an escaped name. */
  lemma TokenWithEscape()
    ensures Split(ESCAPED_TOKEN) == [ESCAPED_TOKEN] == Sent(ESCAPED_TOKEN) && CarriesCredential(ESCAPED_TOKEN)
  {
    assert ['t'] + OKEN_SECRET == "token_secret";
    EscapedPairIsSent('t', '7', '4', OKEN_SECRET, "x");
  }

  lemma NotSpelledOut(pair: string)
    requires pair != "" && pair[0] == '%'
    ensures IsForwardedPair(pair)
  {
  }
}
