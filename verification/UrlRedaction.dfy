/** The URL-carrying fields of an emitted payload, rewritten in place before it
    is written out. How one URL, or the URLs in a sentence, are rewritten is a
    parameter. */
module UrlRedaction {

  import opened Wrappers
  import opened JsonValue

  datatype Rewriters = Rewriters(url: string -> string, prose: string -> string)

  datatype Treatment = Untouched | AsUrl | AsProse

  function Rewrite(rs: Rewriters, t: Treatment, s: string): string {
    match t
    case Untouched => s
    case AsUrl => rs.url(s)
    case AsProse => rs.prose(s)
  }

  function RewriteText(rs: Rewriters, t: Treatment, v: Json): Json {
    if v.Str? then Str(Rewrite(rs, t, v.s)) else v
  }

  predicate NamesUrl(name: string) {
    var n := |name|;
    n >= 4 && (name[n - 4..] == "_url" || name[n - 4..] == "_URL")
  }

  // ---- The walks, as functions of the value ----

  function Walked(rs: Rewriters, v: Json): Json {
    match v
    case Obj(fields) =>
      Obj(map name | name in fields ::
            if fields[name].Str? && NamesUrl(name) then Str(rs.url(fields[name].s)) else Walked(rs, fields[name]))
    case Arr(items) => Arr(seq(|items|, i requires 0 <= i < |items| => Walked(rs, items[i])))
    case _ => v
  }

  datatype Pat = Member(name: string) | Every

  /** Rewrites the strings at the positions a pattern matches. */
  function RewriteAt(rs: Rewriters, t: Treatment, v: Json, pattern: seq<Pat>): Json
    decreases |pattern|
  {
    if pattern == [] then RewriteText(rs, t, v)
    else
      match pattern[0]
      case Member(name) =>
        if v.Obj? && name in v.fields
        then Obj(v.fields[name := RewriteAt(rs, t, v.fields[name], pattern[1..])])
        else v
      case Every =>
        if v.Arr?
        then Arr(seq(|v.items|, i requires 0 <= i < |v.items| => RewriteAt(rs, t, v.items[i], pattern[1..])))
        else v
  }

  const WARNINGS := [Member("warnings"), Every, Member("detail")]
  const COMMAND := [Member("next_action"), Member("recommended_command")]
  const TARGETS := [Member("targets"), Every, Member("url")]

  function Code(v: Json): Option<string> {
    AsStr(Get(v, "code"))
  }

  function Prose(rs: Rewriters, v: Json): Json {
    var v := RewriteAt(rs, AsProse, v, WARNINGS);
    var v := RewriteAt(rs, AsProse, v, COMMAND);
    if Code(v) == Some("tabs") then RewriteAt(rs, AsUrl, v, TARGETS) else v
  }

  predicate IsRawCapture(v: Json) {
    Code(v) == Some("cdp") && "result" in v.fields
  }

  function Redacted(rs: Rewriters, v: Json): Json {
    if IsRawCapture(v) then
      var rest := Prose(rs, Walked(rs, Obj(v.fields - {"result"})));
      if rest.Obj? then Obj(rest.fields["result" := v.fields["result"]]) else rest
    else Prose(rs, Walked(rs, v))
  }

  // ---- The walks, step by step ----

  method RedactUrlFieldsInPlace(rs: Rewriters, v: Json) returns (out: Json)
    ensures out == Walked(rs, v)
    decreases v, 1
  {
    match v {
      case Obj(_) =>
        out := RedactMembers(rs, v);
      case Arr(_) =>
        ghost var goal := Walked(rs, v).items;
        var items, i := v.items, 0;
        while i < |items|
          invariant 0 <= i <= |items| == |v.items|
          invariant forall j :: i <= j < |items| ==> items[j] == v.items[j]
          invariant forall j :: 0 <= j < i ==> items[j] == goal[j]
        {
          var walked := RedactUrlFieldsInPlace(rs, items[i]);
          items := items[i := walked];
          i := i + 1;
        }
        assert items == goal;
        out := Arr(items);
      case _ =>
        out := v;
    }
  }

  method RedactMembers(rs: Rewriters, v: Json) returns (out: Json)
    requires v.Obj?
    ensures out == Walked(rs, v)
    decreases v, 0
  {
    ghost var goal := Walked(rs, v).fields;
    var fields, todo := v.fields, v.fields.Keys;
    while todo != {}
      invariant todo <= v.fields.Keys == fields.Keys
      invariant forall name :: name in fields ==> fields[name] == if name in todo then v.fields[name] else goal[name]
      decreases |todo|
    {
      var name :| name in todo;
      todo := todo - {name};
      var value := fields[name];
      if value.Str? && NamesUrl(name) {
        fields := fields[name := Str(rs.url(value.s))];
      } else {
        var walked := RedactUrlFieldsInPlace(rs, value);
        fields := fields[name := walked];
      }
    }
    assert fields == goal;
    out := Obj(fields);
  }

  lemma RewriteMember(rs: Rewriters, t: Treatment, v: Json, name: string)
    ensures RewriteAt(rs, t, v, [Member(name)])
         == if v.Obj? && name in v.fields && v.fields[name].Str?
            then Obj(v.fields[name := Str(Rewrite(rs, t, v.fields[name].s))]) else v
  {
    assert [Member(name)][1..] == [];
    if v.Obj? && name in v.fields {
      assert v.fields[name := v.fields[name]] == v.fields;
    }
  }

  /** The named string of every item of a list. */
  method RedactItems(rs: Rewriters, t: Treatment, v: Json, list: string, member: string) returns (out: Json)
    ensures out == RewriteAt(rs, t, v, [Member(list), Every, Member(member)])
  {
    out := v;
    ghost var pattern := [Member(list), Every, Member(member)];
    assert pattern[1..][1..] == [Member(member)];
    if v.Obj? && list in v.fields && v.fields[list].Arr? {
      var items, i := v.fields[list].items, 0;
      while i < |items|
        invariant 0 <= i <= |items| == |v.fields[list].items|
        invariant forall j :: i <= j < |items| ==> items[j] == v.fields[list].items[j]
        invariant forall j :: 0 <= j < i ==> items[j] == RewriteAt(rs, t, v.fields[list].items[j], [Member(member)])
      {
        var item := items[i];
        RewriteMember(rs, t, item, member);
        if item.Obj? && member in item.fields && item.fields[member].Str? {
          items := items[i := Obj(item.fields[member := Str(Rewrite(rs, t, item.fields[member].s))])];
        }
        i := i + 1;
      }
      out := Obj(v.fields[list := Arr(items)]);
      assert Arr(items) == RewriteAt(rs, t, v.fields[list], pattern[1..]);
    } else if v.Obj? && list in v.fields {
      assert v.fields[list := v.fields[list]] == v.fields;
    }
  }

  method RedactEnvelopeProse(rs: Rewriters, v: Json) returns (out: Json)
    ensures out == Prose(rs, v)
  {
    out := RedactItems(rs, AsProse, v, "warnings", "detail");
    ghost var warned := out;
    assert COMMAND[1..] == [Member("recommended_command")];
    if out.Obj? && "next_action" in out.fields {
      var next := out.fields["next_action"];
      RewriteMember(rs, AsProse, next, "recommended_command");
      if next.Obj? && "recommended_command" in next.fields && next.fields["recommended_command"].Str? {
        var command := next.fields["recommended_command"].s;
        out := Obj(out.fields["next_action" := Obj(next.fields["recommended_command" := Str(rs.prose(command))])]);
      } else {
        assert out.fields["next_action" := next] == out.fields;
      }
    }
    assert out == RewriteAt(rs, AsProse, warned, COMMAND);
    if Code(out) == Some("tabs") {
      out := RedactItems(rs, AsUrl, out, "targets", "url");
    }
  }

  /** The `result` of a `cdp` event is lifted out, so no walk reaches it, and put back. */
  method RedactUrlFields(rs: Rewriters, v: Json) returns (out: Json)
    ensures out == Redacted(rs, v)
  {
    if Code(v) == Some("cdp") && "result" in v.fields {
      var raw := v.fields["result"];
      out := RedactUrlFieldsInPlace(rs, Obj(v.fields - {"result"}));
      out := RedactEnvelopeProse(rs, out);
      if out.Obj? {
        out := Obj(out.fields["result" := raw]);
      }
    } else {
      out := RedactUrlFieldsInPlace(rs, v);
      out := RedactEnvelopeProse(rs, out);
    }
  }

  // ---- What is rewritten, position by position ----

  datatype Step = Key(name: string) | Index(at: nat)

  function At(v: Json, path: seq<Step>): Option<Json>
    decreases |path|
  {
    if path == [] then Some(v)
    else
      match path[0]
      case Key(name) => if v.Obj? && name in v.fields then At(v.fields[name], path[1..]) else None
      case Index(i) => if v.Arr? && i < |v.items| then At(v.items[i], path[1..]) else None
  }

  /** The same node but for the text of a string: containers keep their keys or
      their length, everything else keeps its value. */
  predicate SameNode(rs: Rewriters, t: Treatment, before: Option<Json>, after: Option<Json>) {
    if before.None? || after.None? then before == after
    else
      match before.value
      case Str(s) => after.value == Str(Rewrite(rs, t, s))
      case Arr(items) => after.value.Arr? && |after.value.items| == |items|
      case Obj(fields) => after.value.Obj? && after.value.fields.Keys == fields.Keys
      case _ => after == before
  }

  predicate Matches(pattern: seq<Pat>, path: seq<Step>)
    decreases |path|
  {
    |pattern| == |path|
    && (path == []
        || ((if pattern[0].Every? then path[0].Index? else path[0] == Key(pattern[0].name))
            && Matches(pattern[1..], path[1..])))
  }

  predicate EndsInUrlName(path: seq<Step>) {
    path != [] && path[|path| - 1].Key? && NamesUrl(path[|path| - 1].name)
  }

  /** The named positions: everything else is reported as it was. */
  function Treated(v: Json, path: seq<Step>): Treatment {
    if IsRawCapture(v) && path != [] && path[0] == Key("result") then Untouched else NamedAs(Code(v), path)
  }

  function NamedAs(code: Option<string>, path: seq<Step>): Treatment {
    if EndsInUrlName(path) then AsUrl
    else if Matches(WARNINGS, path) || Matches(COMMAND, path) then AsProse
    else if code == Some("tabs") && Matches(TARGETS, path) then AsUrl
    else Untouched
  }

  // The named positions in plain terms.

  ghost predicate IsUrlMember(path: seq<Step>) {
    path != [] && path[|path| - 1].Key?
    && exists before: string ::
         path[|path| - 1].name == before + "_url" || path[|path| - 1].name == before + "_URL"
  }

  predicate IsItemMember(path: seq<Step>, list: string, member: string) {
    |path| == 3 && path[0] == Key(list) && path[1].Index? && path[2] == Key(member)
  }

  predicate IsUnderCapture(v: Json, path: seq<Step>) {
    Has(v, "code", Str("cdp")) && path != [] && path[0] == Key("result")
  }

  lemma EndsInUrlReads(path: seq<Step>)
    ensures EndsInUrlName(path) <==> IsUrlMember(path)
  {
    if EndsInUrlName(path) {
      var name := path[|path| - 1].name;
      assert name == name[..|name| - 4] + name[|name| - 4..];
    }
    if IsUrlMember(path) {
      var before: string :| path[|path| - 1].name == before + "_url" || path[|path| - 1].name == before + "_URL";
      assert (before + "_url")[|before|..] == "_url" && (before + "_URL")[|before|..] == "_URL";
    }
  }

  lemma ItemMatches(path: seq<Step>, list: string, member: string)
    ensures Matches([Member(list), Every, Member(member)], path) <==> IsItemMember(path, list, member)
  {
    var pattern := [Member(list), Every, Member(member)];
    assert pattern[1..] == [Every, Member(member)] && [Every, Member(member)][1..] == [Member(member)];
    if |path| == 3 {
      assert path[1..] == [path[1], path[2]] && [path[1], path[2]][1..] == [path[2]];
      MatchesOne(Member(member), path[2]);
    }
  }

  lemma MatchesOne(pat: Pat, step: Step)
    ensures Matches([pat], [step]) <==> if pat.Every? then step.Index? else step == Key(pat.name)
  {
    assert [pat][1..] == [] && [step][1..] == [];
  }

  lemma CommandMatches(path: seq<Step>)
    ensures Matches(COMMAND, path) <==> path == [Key("next_action"), Key("recommended_command")]
  {
    assert COMMAND[1..] == [Member("recommended_command")];
    if |path| == 2 {
      assert path == [path[0], path[1]] && path[1..] == [path[1]];
      MatchesOne(Member("recommended_command"), path[1]);
    }
  }

  /** Where a sentence is rewritten, where a URL is, and where nothing is: members
      whose name ends in `_url` or `_URL`, the targets of a `tabs` event, the
      details of warnings and the recommended command; nothing under a raw capture. */
  lemma TreatmentReads(v: Json, path: seq<Step>)
    requires At(v, path).Some?
    ensures Treated(v, path) == AsUrl <==>
            !IsUnderCapture(v, path)
            && (IsUrlMember(path) || (Has(v, "code", Str("tabs")) && IsItemMember(path, "targets", "url")))
    ensures Treated(v, path) == AsProse <==>
            IsItemMember(path, "warnings", "detail") || path == [Key("next_action"), Key("recommended_command")]
  {
    EndsInUrlReads(path);
    ItemMatches(path, "warnings", "detail");
    ItemMatches(path, "targets", "url");
    CommandMatches(path);
    NamedOnce(path);
  }

  lemma {:induction false} WalkedAt(rs: Rewriters, v: Json, path: seq<Step>)
    ensures SameNode(rs, if EndsInUrlName(path) then AsUrl else Untouched, At(v, path), At(Walked(rs, v), path))
    decreases |path|
  {
    if path != [] {
      var rest := path[1..];
      assert rest != [] ==> rest[|rest| - 1] == path[|path| - 1];
      if path[0].Key? {
        if v.Obj? && path[0].name in v.fields {
          WalkedAt(rs, v.fields[path[0].name], rest);
        }
      } else if v.Arr? && path[0].at < |v.items| {
        WalkedAt(rs, v.items[path[0].at], rest);
      }
    }
  }

  lemma {:induction false} RewrittenAt(rs: Rewriters, t: Treatment, v: Json, pattern: seq<Pat>, path: seq<Step>)
    ensures SameNode(rs, if Matches(pattern, path) then t else Untouched,
                     At(v, path), At(RewriteAt(rs, t, v, pattern), path))
    decreases |path|
  {
    if path != [] && pattern != [] {
      var rest := path[1..];
      if path[0].Key? {
        if v.Obj? && path[0].name in v.fields {
          var m := v.fields[path[0].name];
          RewrittenAt(rs, t, m, pattern[1..], rest);
          SameAsItself(rs, m, rest);
        }
      } else if v.Arr? && path[0].at < |v.items| {
        RewrittenAt(rs, t, v.items[path[0].at], pattern[1..], rest);
        SameAsItself(rs, v.items[path[0].at], rest);
      }
    } else if path != [] {
      SameAsItself(rs, v, path);
    }
  }

  lemma SameAsItself(rs: Rewriters, v: Json, path: seq<Step>)
    ensures SameNode(rs, Untouched, At(v, path), At(v, path))
  {
  }

  lemma BothTreatments(rs: Rewriters, s: Treatment, t: Treatment, a: Option<Json>, b: Option<Json>, c: Option<Json>)
    requires SameNode(rs, s, a, b) && SameNode(rs, t, b, c)
    requires s.Untouched? || t.Untouched?
    ensures SameNode(rs, if s.Untouched? then t else s, a, c)
  {
  }

  lemma {:induction false} MatchAt(pattern: seq<Pat>, path: seq<Step>, i: nat)
    requires i < |path|
    ensures Matches(pattern, path) ==>
              |pattern| == |path| && (pattern[i].Member? ==> path[i] == Key(pattern[i].name))
  {
    if i > 0 && |pattern| == |path| {
      MatchAt(pattern[1..], path[1..], i - 1);
    }
  }

  /** No position is named twice. */
  lemma NamedOnce(path: seq<Step>)
    ensures Matches(WARNINGS, path) ==> !EndsInUrlName(path) && !Matches(COMMAND, path) && !Matches(TARGETS, path)
    ensures Matches(COMMAND, path) ==> !EndsInUrlName(path) && !Matches(TARGETS, path)
    ensures Matches(TARGETS, path) ==> !EndsInUrlName(path)
  {
    if |path| > 1 {
      MatchAt(WARNINGS, path, 0);
      MatchAt(TARGETS, path, 0);
      MatchAt(WARNINGS, path, |path| - 1);
      MatchAt(COMMAND, path, |path| - 1);
      MatchAt(TARGETS, path, |path| - 1);
    }
  }

  lemma CodeStays(rs: Rewriters, v: Json)
    ensures Code(Walked(rs, v)) == Code(v)
    ensures Code(RewriteAt(rs, AsProse, RewriteAt(rs, AsProse, v, WARNINGS), COMMAND)) == Code(v)
  {
  }

  /** Outside a raw capture every position gets the treatment its name calls for. */
  lemma EnvelopeAt(rs: Rewriters, v: Json, path: seq<Step>)
    ensures SameNode(rs, NamedAs(Code(v), path), At(v, path), At(Prose(rs, Walked(rs, v)), path))
  {
    var walked := Walked(rs, v);
    var warned := RewriteAt(rs, AsProse, walked, WARNINGS);
    var told := RewriteAt(rs, AsProse, warned, COMMAND);
    NamedOnce(path);
    CodeStays(rs, v);
    CodeStays(rs, walked);
    WalkedAt(rs, v, path);
    RewrittenAt(rs, AsProse, walked, WARNINGS, path);
    RewrittenAt(rs, AsProse, warned, COMMAND, path);
    RewrittenAt(rs, AsUrl, told, TARGETS, path);
    var named := if EndsInUrlName(path) then AsUrl else Untouched;
    var warn := if Matches(WARNINGS, path) then AsProse else Untouched;
    BothTreatments(rs, named, warn, At(v, path), At(walked, path), At(warned, path));
    var command := if Matches(COMMAND, path) then AsProse else Untouched;
    var first := if named.Untouched? then warn else named;
    BothTreatments(rs, first, command, At(v, path), At(warned, path), At(told, path));
    if Code(v) == Some("tabs") {
      var target := if Matches(TARGETS, path) then AsUrl else Untouched;
      BothTreatments(rs, NamedAs(None, path), target, At(v, path), At(told, path), At(Prose(rs, walked), path));
    }
  }

  lemma CaptureAt(rs: Rewriters, v: Json, path: seq<Step>)
    requires IsRawCapture(v)
    ensures SameNode(rs, Treated(v, path), At(v, path), At(Redacted(rs, v), path))
  {
    var lifted := Obj(v.fields - {"result"});
    var rest := Prose(rs, Walked(rs, lifted));
    EnvelopeAt(rs, lifted, []);
    assert At(rest, []) == Some(rest) && rest.Obj?;
    if path == [] {
      assert v.fields.Keys == (v.fields.Keys - {"result"}) + {"result"};
    } else if path[0] == Key("result") {
      SameAsItself(rs, v, path);
    } else {
      EnvelopeAt(rs, lifted, path);
    }
  }

  /** Every position of every payload: same shape, and a string changes only
      where its position is named, by the rewriting that position calls for. */
  lemma RewritesNamedPositionsOnly(rs: Rewriters, v: Json, path: seq<Step>)
    ensures SameNode(rs, Treated(v, path), At(v, path), At(Redacted(rs, v), path))
  {
    if IsRawCapture(v) {
      CaptureAt(rs, v, path);
    } else {
      EnvelopeAt(rs, v, path);
    }
  }

  /** The same in plain terms, for every string of every payload. */
  lemma StringsRead(rs: Rewriters, v: Json, path: seq<Step>, s: string)
    requires At(v, path) == Some(Str(s))
    ensures At(Redacted(rs, v), path) ==
            Some(Str(
                   if !IsUnderCapture(v, path)
                      && (IsUrlMember(path) || (Has(v, "code", Str("tabs")) && IsItemMember(path, "targets", "url")))
                   then rs.url(s)
                   else if IsItemMember(path, "warnings", "detail")
                           || path == [Key("next_action"), Key("recommended_command")]
                   then rs.prose(s)
                   else s))
  {
    RewritesNamedPositionsOnly(rs, v, path);
    TreatmentReads(v, path);
  }

  /** The browser's own answer is returned as the browser gave it. */
  lemma RawCaptureIsUntouched(rs: Rewriters, v: Json)
    requires Code(v) == Some("cdp")
    ensures Get(Redacted(rs, v), "result") == Get(v, "result")
  {
    RewritesNamedPositionsOnly(rs, v, []);
    if "result" in v.fields {
      EnvelopeAt(rs, Obj(v.fields - {"result"}), []);
    }
  }

  // ---- Redacting twice ----

  /** Values that agree at every position are one value. */
  lemma {:induction false} SameEverywhere(rs: Rewriters, a: Json, b: Json)
    requires forall path :: SameNode(rs, Untouched, At(a, path), At(b, path))
    ensures a == b
  {
    assert SameNode(rs, Untouched, At(a, []), At(b, []));
    match a {
      case Obj(fields) =>
        forall name | name in fields ensures fields[name] == b.fields[name] {
          forall path ensures SameNode(rs, Untouched, At(fields[name], path), At(b.fields[name], path)) {
            assert SameNode(rs, Untouched, At(a, [Key(name)] + path), At(b, [Key(name)] + path));
          }
          SameEverywhere(rs, fields[name], b.fields[name]);
        }
        assert fields == b.fields;
      case Arr(items) =>
        forall i | 0 <= i < |items| ensures items[i] == b.items[i] {
          forall path ensures SameNode(rs, Untouched, At(items[i], path), At(b.items[i], path)) {
            assert SameNode(rs, Untouched, At(a, [Index(i)] + path), At(b, [Index(i)] + path));
          }
          SameEverywhere(rs, items[i], b.items[i]);
        }
      case _ =>
    }
  }

  lemma NamesStay(rs: Rewriters, v: Json, path: seq<Step>)
    ensures Treated(Redacted(rs, v), path) == Treated(v, path)
  {
    var once := Redacted(rs, v);
    RewritesNamedPositionsOnly(rs, v, []);
    RewritesNamedPositionsOnly(rs, v, [Key("code")]);
    AtMember(v, "code");
    AtMember(once, "code");
    assert Treated(v, [Key("code")]).Untouched?;
    assert Code(once) == Code(v);
  }

  lemma AtMember(v: Json, name: string)
    ensures At(v, [Key(name)]) == Get(v, name) && At(v, []) == Some(v)
  {
    assert [Key(name)][1..] == [];
  }

  lemma TreatedTwice(rs: Rewriters, t: Treatment, a: Option<Json>, b: Option<Json>, c: Option<Json>)
    requires SameNode(rs, t, a, b) && SameNode(rs, t, b, c)
    requires forall s :: rs.url(rs.url(s)) == rs.url(s)
    requires forall s :: rs.prose(rs.prose(s)) == rs.prose(s)
    ensures SameNode(rs, Untouched, b, c)
  {
  }

  /** A payload redacted again is unchanged, whenever that holds of one string. */
  lemma RedactingTwiceIsOnce(rs: Rewriters, v: Json)
    requires forall s :: rs.url(rs.url(s)) == rs.url(s)
    requires forall s :: rs.prose(rs.prose(s)) == rs.prose(s)
    ensures Redacted(rs, Redacted(rs, v)) == Redacted(rs, v)
  {
    var once := Redacted(rs, v);
    var twice := Redacted(rs, once);
    forall path ensures SameNode(rs, Untouched, At(once, path), At(twice, path)) {
      RewritesNamedPositionsOnly(rs, v, path);
      RewritesNamedPositionsOnly(rs, once, path);
      NamesStay(rs, v, path);
      TreatedTwice(rs, Treated(v, path), At(v, path), At(once, path), At(twice, path));
    }
    SameEverywhere(rs, once, twice);
  }
}
