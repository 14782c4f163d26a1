/** Writing a value at a path of object keys, and the lists of such writes a
    browser profile is seeded with. */
module JsonPath {

  import opened Wrappers
  import opened Sequences
  import opened JsonValue

  type Path = seq<string>

  /** The members of an object; anything else is overwritten by an empty one. */
  function Fields(v: Json): map<string, Json> {
    if v.Obj? then v.fields else map[]
  }

  /** Where a missing member starts from. */
  function Member(v: Json, key: string): Json {
    if key in Fields(v) then Fields(v)[key] else Obj(map[])
  }

  function Put(v: Json, key: string, member: Json): Json {
    Obj(Fields(v)[key := member])
  }

  function Set(root: Json, path: Path, value: Json): Json
    decreases |path|
  {
    if path == [] then root
    else if |path| == 1 then Put(root, path[0], value)
    else Put(root, path[0], Set(Member(root, path[0]), path[1..], value))
  }

  function Lookup(root: Json, path: Path): Option<Json>
    decreases |path|
  {
    if path == [] then Some(root)
    else
      match Get(root, path[0])
      case Some(v) => Lookup(v, path[1..])
      case None => None
  }

  // ---- The cursor that moves down the tree ----

  /** One object the cursor has passed, and the key it went down by. */
  datatype Crumb = Crumb(fields: map<string, Json>, key: string)

  /** The whole tree, given what is now at the cursor. */
  function Rebuilt(trail: seq<Crumb>, cursor: Json): Json {
    if trail == [] then cursor
    else Rebuilt(Init(trail), Obj(Last(trail).fields[Last(trail).key := cursor]))
  }

  method SetJsonPath(root: Json, path: Path, value: Json) returns (result: Json)
    ensures result == Set(root, path, value)
  {
    if path == [] {
      return root;
    }
    var cursor := root;
    var trail: seq<Crumb> := [];
    for i := 0 to |path| - 1
      invariant Rebuilt(trail, Set(cursor, path[i..], value)) == Set(root, path, value)
    {
      var fields := if cursor.Obj? then cursor.fields else map[];
      ghost var here := cursor;
      assert path[i..][1..] == path[i + 1..];
      trail := trail + [Crumb(fields, path[i])];
      cursor := if path[i] in fields then fields[path[i]] else Obj(map[]);
      assert Init(trail) + [Crumb(fields, path[i])] == trail;
    }
    var last := path[|path| - 1];
    var fields := if cursor.Obj? then cursor.fields else map[];
    cursor := Obj(fields[last := value]);
    result := Climb(trail, cursor);
  }

  /** Leave the cursor: put what is under it back where it came from. */
  method Climb(trail: seq<Crumb>, cursor: Json) returns (root: Json)
    ensures root == Rebuilt(trail, cursor)
  {
    root := cursor;
    var i := |trail|;
    assert trail[..i] == trail;
    while i > 0
      invariant 0 <= i <= |trail|
      invariant Rebuilt(trail[..i], root) == Rebuilt(trail, cursor)
    {
      assert Init(trail[..i]) == trail[..i - 1];
      i := i - 1;
      root := Obj(trail[i].fields[trail[i].key := root]);
    }
  }

  // ---- The laws of one write ----

  /** Neither path leads through the other. */
  predicate Apart(p: Path, q: Path) {
    !(p <= q) && !(q <= p)
  }

  lemma ApartBelow(p: Path, q: Path)
    requires Apart(p, q)
    ensures p != [] && q != [] && (p[0] == q[0] ==> |p| > 1 && |q| > 1 && Apart(p[1..], q[1..]))
  {
    if p[0] == q[0] {
      assert p == [p[0]] + p[1..] && q == [q[0]] + q[1..];
      assert |p| == 1 ==> p <= q;
      assert |q| == 1 ==> q <= p;
    }
  }

  lemma PutLaws(v: Json, j: string, k: string, a: Json, b: Json)
    ensures Member(Put(v, j, a), j) == a
    ensures j != k ==> Member(Put(v, j, a), k) == Member(v, k)
    ensures Put(Put(v, j, a), j, b) == Put(v, j, b)
    ensures j != k ==> Put(Put(v, j, a), k, b) == Put(Put(v, k, b), j, a)
  {
    var fields := Fields(v);
    assert fields[j := a][j := b] == fields[j := b];
    if j != k {
      UpdatesCommute(fields, j, k, a, b);
    }
  }

  lemma UpdatesCommute(fields: map<string, Json>, j: string, k: string, a: Json, b: Json)
    requires j != k
    ensures fields[j := a][k := b] == fields[k := b][j := a]
  {
  }

  /** A second write under the same member is a write to what the first left there. */
  lemma SetAgainBelow(root: Json, key: string, m: Json, q: Path, w: Json)
    requires |q| > 1 && q[0] == key
    ensures Set(Put(root, key, m), q, w) == Put(root, key, Set(m, q[1..], w))
  {
    PutLaws(root, key, key, m, Set(m, q[1..], w));
  }

  lemma SetUnfolds(root: Json, path: Path, value: Json)
    requires |path| > 1
    ensures Set(root, path, value) == Put(root, path[0], Set(Member(root, path[0]), path[1..], value))
  {
  }

  lemma LookupPut(v: Json, key: string, member: Json, path: Path)
    requires path != []
    ensures Lookup(Put(v, key, member), path) ==
            if path[0] == key then Lookup(member, path[1..]) else Lookup(v, path)
  {
  }

  /** The written path reads back, and everything under it is the value's; the
      empty path writes nothing. */
  lemma {:induction false} ReadsBack(root: Json, path: Path, suffix: Path, value: Json)
    ensures if path == [] then Set(root, path, value) == root
            else Lookup(Set(root, path, value), path + suffix) == Lookup(value, suffix)
    decreases |path|
  {
    if path == [] {
      return;
    }
    assert (path + suffix)[1..] == path[1..] + suffix;
    if |path| == 1 {
      assert path[1..] + suffix == suffix;
      LookupPut(root, path[0], value, path + suffix);
    } else {
      var below := Set(Member(root, path[0]), path[1..], value);
      SetUnfolds(root, path, value);
      LookupPut(root, path[0], below, path + suffix);
      ReadsBack(Member(root, path[0]), path[1..], suffix, value);
    }
  }

  lemma LookupMember(v: Json, path: Path)
    requires |path| > 1
    ensures Lookup(v, path) == Lookup(Member(v, path[0]), path[1..])
  {
  }

  lemma {:induction false} LeavesApart(root: Json, path: Path, value: Json, other: Path)
    requires Apart(path, other)
    ensures Lookup(Set(root, path, value), other) == Lookup(root, other)
    decreases |path|
  {
    ApartBelow(path, other);
    if |path| == 1 {
      LookupPut(root, path[0], value, other);
    } else {
      var below := Set(Member(root, path[0]), path[1..], value);
      SetUnfolds(root, path, value);
      LookupPut(root, path[0], below, other);
      if path[0] == other[0] {
        LookupMember(root, other);
        LeavesApart(Member(root, path[0]), path[1..], value, other[1..]);
      }
    }
  }

  /** The last write to a path wins. */
  lemma {:induction false} LastWriteWins(root: Json, path: Path, first: Json, second: Json)
    ensures Set(Set(root, path, first), path, second) == Set(root, path, second)
    decreases |path|
  {
    if |path| > 1 {
      var m := Member(root, path[0]);
      SetUnfolds(root, path, first);
      SetUnfolds(root, path, second);
      SetAgainBelow(root, path[0], Set(m, path[1..], first), path, second);
      LastWriteWins(m, path[1..], first, second);
    } else if |path| == 1 {
      PutLaws(root, path[0], path[0], first, second);
    }
  }

  /** Writes under different members of one object. */
  lemma SiblingsCommute(root: Json, p: Path, v: Json, q: Path, w: Json)
    requires p != [] && q != [] && p[0] != q[0]
    ensures Set(Set(root, p, v), q, w) == Set(Set(root, q, w), p, v)
  {
    var a := if |p| == 1 then v else Set(Member(root, p[0]), p[1..], v);
    var b := if |q| == 1 then w else Set(Member(root, q[0]), q[1..], w);
    PutLaws(root, p[0], q[0], a, b);
    PutLaws(root, q[0], p[0], b, a);
  }

  lemma CommuteBelow(root: Json, p: Path, v: Json, q: Path, w: Json, a: Json, b: Json)
    requires |p| > 1 && |q| > 1 && p[0] == q[0]
    requires Set(root, p, v) == Put(root, p[0], a) && Set(root, q, w) == Put(root, p[0], b)
    requires Set(a, q[1..], w) == Set(b, p[1..], v)
    ensures Set(Set(root, p, v), q, w) == Set(Set(root, q, w), p, v)
  {
    SetAgainBelow(root, p[0], a, q, w);
    SetAgainBelow(root, p[0], b, p, v);
  }

  lemma {:induction false} WritesCommute(root: Json, p: Path, v: Json, q: Path, w: Json)
    requires Apart(p, q)
    ensures Set(Set(root, p, v), q, w) == Set(Set(root, q, w), p, v)
    decreases |p|
  {
    ApartBelow(p, q);
    if p[0] == q[0] {
      var m := Member(root, p[0]);
      WritesCommute(m, p[1..], v, q[1..], w);
      SetUnfolds(root, p, v);
      SetUnfolds(root, q, w);
      CommuteBelow(root, p, v, q, w, Set(m, p[1..], v), Set(m, q[1..], w));
    } else {
      SiblingsCommute(root, p, v, q, w);
    }
  }

  // ---- Lists of writes ----

  datatype Write = Write(path: Path, value: Json)

  function Apply(root: Json, writes: seq<Write>): Json {
    if writes == [] then root else Set(Apply(root, Init(writes)), Last(writes).path, Last(writes).value)
  }

  /** What a profile file becomes: its object, or an empty one, after the writes. */
  function Merged(stored: Option<Json>, writes: seq<Write>): Json {
    Apply(match stored { case Some(Obj(fields)) => Obj(fields) case _ => Obj(map[]) }, writes)
  }

  ghost predicate PairwiseApart(writes: seq<Write>) {
    forall i, j :: 0 <= i < j < |writes| ==> Apart(writes[i].path, writes[j].path)
  }

  lemma ApplyOneMore(root: Json, writes: seq<Write>, w: Write)
    ensures Apply(root, writes + [w]) == Set(Apply(root, writes), w.path, w.value)
  {
    assert Init(writes + [w]) == writes && Last(writes + [w]) == w;
  }

  lemma LastTwoCommute(root: Json, writes: seq<Write>, v: Write, w: Write)
    requires Apart(v.path, w.path)
    ensures Apply(root, writes + [v] + [w]) == Apply(root, writes + [w] + [v])
  {
    ApplyOneMore(root, writes, v);
    ApplyOneMore(root, writes, w);
    ApplyOneMore(root, writes + [v], w);
    ApplyOneMore(root, writes + [w], v);
    WritesCommute(Apply(root, writes), v.path, v.value, w.path, w.value);
  }

  /** All but the `i`-th. */
  function Others(writes: seq<Write>, i: nat): seq<Write>
    requires i < |writes|
  {
    writes[..i] + writes[i + 1..]
  }

  lemma OthersOfFront(writes: seq<Write>, i: nat)
    requires i < |writes| - 1
    ensures Others(Init(writes), i) + [Last(writes)] == Others(writes, i)
    ensures PairwiseApart(writes) ==> PairwiseApart(Init(writes)) && Apart(writes[i].path, Last(writes).path)
  {
  }

  lemma {:induction false} WriteMovesLast(root: Json, writes: seq<Write>, i: nat)
    requires PairwiseApart(writes) && i < |writes|
    ensures Apply(root, writes) == Apply(root, Others(writes, i) + [writes[i]])
    decreases |writes|
  {
    if i == |writes| - 1 {
      assert Others(writes, i) + [writes[i]] == writes;
    } else {
      var front, last := Init(writes), Last(writes);
      OthersOfFront(writes, i);
      WriteMovesLast(root, front, i);
      LastTwoCommute(root, Others(front, i), writes[i], last);
      ApplyOneMore(root, Others(front, i) + [writes[i]], last);
    }
  }

  lemma OthersKeepRest(writes: seq<Write>, i: nat)
    requires i < |writes|
    ensures multiset(Others(writes, i)) == multiset(writes) - multiset{writes[i]}
    ensures PairwiseApart(writes) ==> PairwiseApart(Others(writes, i))
  {
    assert writes == writes[..i] + [writes[i]] + writes[i + 1..];
    OthersStayApart(writes, i);
  }

  lemma OthersStayApart(writes: seq<Write>, i: nat)
    requires i < |writes|
    ensures PairwiseApart(writes) ==> PairwiseApart(Others(writes, i))
  {
    assert forall k :: 0 <= k < |writes| - 1 ==> Others(writes, i)[k] == writes[if k < i then k else k + 1];
  }

  /** The order of writes to pairwise separate paths does not matter. */
  lemma {:induction false} OrderDoesNotMatter(root: Json, a: seq<Write>, b: seq<Write>)
    requires PairwiseApart(a) && multiset(a) == multiset(b)
    ensures Apply(root, a) == Apply(root, b)
    decreases |b|
  {
    if b == [] {
      assert |multiset(a)| == 0;
    } else {
      assert b == Init(b) + [Last(b)];
      assert Last(b) in multiset(a);
      var i :| 0 <= i < |a| && a[i] == Last(b);
      WriteMovesLast(root, a, i);
      OthersKeepRest(a, i);
      OrderDoesNotMatter(root, Others(a, i), Init(b));
      ApplyOneMore(root, Others(a, i), a[i]);
    }
  }

  lemma {:induction false} WriteSettled(root: Json, writes: seq<Write>, i: nat)
    requires PairwiseApart(writes) && i < |writes|
    ensures Set(Apply(root, writes), writes[i].path, writes[i].value) == Apply(root, writes)
  {
    WriteMovesLast(root, writes, i);
    ApplyOneMore(root, Others(writes, i), writes[i]);
    LastWriteWins(Apply(root, Others(writes, i)), writes[i].path, writes[i].value, writes[i].value);
  }

  lemma {:induction false} SettledPrefix(root: Json, writes: seq<Write>, n: nat)
    requires PairwiseApart(writes) && n <= |writes|
    ensures Apply(Apply(root, writes), writes[..n]) == Apply(root, writes)
  {
    if n > 0 {
      assert Init(writes[..n]) == writes[..n - 1];
      SettledPrefix(root, writes, n - 1);
      WriteSettled(root, writes, n - 1);
    }
  }

  /** Applying the list again changes nothing. */
  lemma ApplyingTwiceIsOnce(root: Json, writes: seq<Write>)
    requires PairwiseApart(writes)
    ensures Apply(Apply(root, writes), writes) == Apply(root, writes)
  {
    SettledPrefix(root, writes, |writes|);
    assert writes[..|writes|] == writes;
  }

  lemma {:induction false} EveryWriteReadsBack(root: Json, writes: seq<Write>, i: nat)
    requires PairwiseApart(writes) && i < |writes| && writes[i].path != []
    ensures Lookup(Apply(root, writes), writes[i].path) == Some(writes[i].value)
  {
    WriteMovesLast(root, writes, i);
    ApplyOneMore(root, Others(writes, i), writes[i]);
    ReadsBack(Apply(root, Others(writes, i)), writes[i].path, [], writes[i].value);
    assert writes[i].path + [] == writes[i].path;
  }

  lemma {:induction false} NothingElseChanges(root: Json, writes: seq<Write>, other: Path)
    requires forall i :: 0 <= i < |writes| ==> Apart(writes[i].path, other)
    ensures Lookup(Apply(root, writes), other) == Lookup(root, other)
  {
    if writes != [] {
      NothingElseChanges(root, Init(writes), other);
      LeavesApart(Apply(root, Init(writes)), Last(writes).path, Last(writes).value, other);
    }
  }

  // ---- The profile's own lists ----

  const LOCAL_STATE: seq<Write> := [
    Write(["browser", "has_seen_welcome_page"], Bool(true)),
    Write(["browser", "should_reset_check_default_browser"], Bool(false)),
    Write(["user_experience_metrics", "reporting_enabled"], Bool(false)),
    Write(["user_experience_metrics", "stability", "exited_cleanly"], Bool(true)),
    Write(["brave", "p3a", "enabled"], Bool(false)),
    Write(["brave", "stats", "reporting_enabled"], Bool(false))]

  function Preferences(downloads: string): seq<Write> {
    [Write(["profile", "exit_type"], Str("Normal")),
     Write(["profile", "exited_cleanly"], Bool(true)),
     Write(["profile", "password_manager_enabled"], Bool(false)),
     Write(["credentials_enable_service"], Bool(false)),
     Write(["autofill", "profile_enabled"], Bool(false)),
     Write(["autofill", "credit_card_enabled"], Bool(false)),
     Write(["safebrowsing", "scout_reporting_enabled_when_deprecated"], Bool(false)),
     Write(["download", "prompt_for_download"], Bool(false)),
     Write(["download", "default_directory"], Str(downloads)),
     Write(["savefile", "default_directory"], Str(downloads))]
  }

  /** Paths that part at the first key, or at the second after a shared first. */
  predicate PartsEarly(p: Path, q: Path) {
    p != [] && q != [] && (p[0] != q[0] || (|p| > 1 && |q| > 1 && p[1] != q[1]))
  }

  lemma PartingEarlyIsApart(p: Path, q: Path)
    requires PartsEarly(p, q)
    ensures Apart(p, q)
  {
  }

  lemma LocalStateIsApart()
    ensures PairwiseApart(LOCAL_STATE)
  {
    forall i, j | 0 <= i < j < |LOCAL_STATE| ensures Apart(LOCAL_STATE[i].path, LOCAL_STATE[j].path) {
      PartingEarlyIsApart(LOCAL_STATE[i].path, LOCAL_STATE[j].path);
    }
  }

  lemma PreferencesAreApart(downloads: string)
    ensures PairwiseApart(Preferences(downloads))
  {
    var w := Preferences(downloads);
    forall i, j | 0 <= i < j < |w| ensures Apart(w[i].path, w[j].path) {
      PartingEarlyIsApart(w[i].path, w[j].path);
    }
  }

  /** Seeding a file again, or in another order, gives the same file, whatever was stored before. */
  lemma SeedingIsStable(stored: Option<Json>, writes: seq<Write>, order: seq<Write>)
    requires PairwiseApart(writes) && multiset(order) == multiset(writes)
    ensures Merged(stored, order) == Merged(stored, writes)
    ensures Merged(Some(Merged(stored, writes)), writes) == Merged(stored, writes)
  {
    var root := match stored { case Some(Obj(fields)) => Obj(fields) case _ => Obj(map[]) };
    OrderDoesNotMatter(root, writes, order);
    ApplyStaysObject(root, writes);
    ApplyingTwiceIsOnce(root, writes);
  }

  lemma PreseedIsStable(stored: Option<Json>, downloads: string, local: seq<Write>, preferences: seq<Write>)
    requires multiset(local) == multiset(LOCAL_STATE)
    requires multiset(preferences) == multiset(Preferences(downloads))
    ensures Merged(stored, local) == Merged(Some(Merged(stored, local)), local) == Merged(stored, LOCAL_STATE)
    ensures Merged(stored, preferences) == Merged(Some(Merged(stored, preferences)), preferences)
            == Merged(stored, Preferences(downloads))
  {
    LocalStateIsApart();
    PreferencesAreApart(downloads);
    SeedingIsStable(stored, LOCAL_STATE, local);
    SeedingIsStable(Some(Merged(stored, LOCAL_STATE)), LOCAL_STATE, local);
    SeedingIsStable(stored, Preferences(downloads), preferences);
    SeedingIsStable(Some(Merged(stored, Preferences(downloads))), Preferences(downloads), preferences);
  }

  lemma {:induction false} ApplyStaysObject(root: Json, writes: seq<Write>)
    requires root.Obj?
    ensures Apply(root, writes).Obj?
  {
    if writes != [] {
      ApplyStaysObject(root, Init(writes));
    }
  }
}
