/** Which of a line's passwords are masked: what stands in the output after every
    `://`, and which of them the scan finds, read off the line. */
module RedactionReach {

  import opened Wrappers
  import opened Redaction

  // ---- Read off the line ----

  /** A `://` that is not itself passed over runs into this one. */
  ghost predicate PassedOver(s: string, i: nat)
    decreases i
  {
    exists j: nat :: j < i && SchemeAt(s, j) && RunsInto(s, j, i) && !PassedOver(s, j)
  }

  /** Position by position: a `://` is found unless one that is not passed over runs into it. */
  lemma {:induction false} FoundUnlessPassedOver(s: string, i: nat)
    requires SchemeAt(s, i)
    ensures IsFound(s, 0, i) <==> !PassedOver(s, i)
    decreases i
  {
    FoundUnlessRunInto(s, i);
    forall j: nat | j < i && SchemeAt(s, j) ensures IsFound(s, 0, j) <==> !PassedOver(s, j) {
      FoundUnlessPassedOver(s, j);
    }
    forall j: nat | IsFound(s, 0, j) ensures SchemeAt(s, j) {
      FoundIsScheme(s, 0, j);
    }
  }

  /** For the whole line: every `://` is found exactly when none runs into a later one. */
  lemma {:induction false} AllFoundExactlyWhen(s: string)
    ensures (forall i: nat :: SchemeAt(s, i) ==> IsFound(s, 0, i))
       <==> forall i: nat, j: nat :: SchemeAt(s, i) && SchemeAt(s, j) ==> !RunsInto(s, j, i)
  {
    if forall i: nat, j: nat :: SchemeAt(s, i) && SchemeAt(s, j) ==> !RunsInto(s, j, i) {
      forall i: nat | SchemeAt(s, i) ensures IsFound(s, 0, i) {
        FoundUnlessPassedOver(s, i);
      }
    }
    if forall i: nat :: SchemeAt(s, i) ==> IsFound(s, 0, i) {
      forall i: nat, j: nat | SchemeAt(s, i) && SchemeAt(s, j) ensures !RunsInto(s, j, i) {
        if j < i {
          FoundIsNotRunInto(s, 0, j, i);
        }
      }
    }
  }

  // ---- What a scan writes ----

  /** One stop of a scan: where its `://` stands and where the authority after it ends. */
  datatype Stop = Stop(pos: nat, end: nat)

  /** A scan of `s` goes forward and stays in the line. */
  ghost predicate Scans(next: nat -> Option<Stop>, s: string) {
    forall from: nat :: from <= |s| && next(from).Some?
                        ==> from <= next(from).value.pos && next(from).value.pos + 3 <= next(from).value.end <= |s|
  }

  function Least(a: nat, b: nat): nat {
    if a <= b then a else b
  }

  /** What is written for `s[..to]` from `from` on, with the stops that `next`
      gives and authorities written by `mask`. */
  ghost function Written(mask: string -> string, next: nat -> Option<Stop>, s: string, from: nat, to: nat): string
    requires Scans(next, s) && from <= to <= |s|
    decreases |s| - from
  {
    match next(from)
    case None => s[from..to]
    case Some(stop) =>
      if to < stop.pos + 3 then s[from..to]
      else
        s[from..stop.pos + 3]
        + (mask(s[stop.pos + 3..Least(stop.end, to)]) + Written(mask, next, s, Least(stop.end, to), to))
  }

  /** The scan, begun at `from`, comes to resume at `at`. */
  ghost predicate Resumes(next: nat -> Option<Stop>, s: string, from: nat, at: nat)
    requires Scans(next, s) && from <= |s|
    decreases |s| - from
  {
    at == from || (next(from).Some? && Resumes(next, s, next(from).value.end, at))
  }

  lemma {:induction false} ResumesLater(next: nat -> Option<Stop>, s: string, from: nat, at: nat)
    requires Scans(next, s) && from <= |s| && Resumes(next, s, from, at)
    ensures from <= at <= |s|
    decreases |s| - from
  {
    if at != from {
      ResumesLater(next, s, next(from).value.end, at);
    }
  }

  lemma {:induction false} ResumesNext(next: nat -> Option<Stop>, s: string, from: nat, m: nat)
    requires Scans(next, s) && from <= |s| && m <= |s| && Resumes(next, s, from, m) && next(m).Some?
    ensures Resumes(next, s, from, next(m).value.end)
    decreases |s| - from
  {
    if m == from {
      assert Resumes(next, s, next(m).value.end, next(m).value.end);
    } else {
      ResumesNext(next, s, next(from).value.end, m);
    }
  }

  lemma {:induction false} NothingWritten(mask: string -> string, next: nat -> Option<Stop>, s: string, at: nat)
    requires Scans(next, s) && at <= |s|
    ensures Written(mask, next, s, at, at) == ""
  {
  }

  lemma {:induction false} WrittenStep(mask: string -> string, next: nat -> Option<Stop>, s: string, from: nat, to: nat)
    requires Scans(next, s) && from <= to <= |s| && next(from).Some? && next(from).value.pos + 3 <= to
    ensures var stop := next(from).value;
            Written(mask, next, s, from, to)
            == s[from..stop.pos + 3]
             + (mask(s[stop.pos + 3..Least(stop.end, to)]) + Written(mask, next, s, Least(stop.end, to), to))
  {
  }

  lemma {:induction false} Joins(x: string, y: string, a: string, b: string, c: string, d: string, tail: string)
    requires x == a + (b + c) && c == d + tail && y == a + (b + d)
    ensures x == y + tail
  {
    assert b + (d + tail) == (b + d) + tail;
  }

  /** What is written splits where the scan resumes. */
  lemma {:induction false} WrittenSplits(
    mask: string -> string, next: nat -> Option<Stop>, s: string, from: nat, at: nat, to: nat)
    requires Scans(next, s) && from <= |s| && Resumes(next, s, from, at) && at <= to <= |s|
    ensures from <= at
    ensures Written(mask, next, s, from, to) == Written(mask, next, s, from, at) + Written(mask, next, s, at, to)
    decreases |s| - from
  {
    ResumesLater(next, s, from, at);
    if at == from {
      NothingWritten(mask, next, s, at);
    } else {
      var stop := next(from).value;
      ResumesLater(next, s, stop.end, at);
      WrittenSplits(mask, next, s, stop.end, at, to);
      WrittenStep(mask, next, s, from, to);
      WrittenStep(mask, next, s, from, at);
      Joins(Written(mask, next, s, from, to), Written(mask, next, s, from, at),
            s[from..stop.pos + 3], mask(s[stop.pos + 3..stop.end]),
            Written(mask, next, s, stop.end, to), Written(mask, next, s, stop.end, at), Written(mask, next, s, at, to));
    }
  }

  /** Up to the middle of the authority at a stop. */
  lemma {:induction false} WrittenToAuthority(
    mask: string -> string, next: nat -> Option<Stop>, s: string, m: nat, to: nat)
    requires Scans(next, s) && m <= to <= |s| && next(m).Some? && next(m).value.pos + 3 <= to <= next(m).value.end
    ensures Written(mask, next, s, m, to) == s[m..next(m).value.pos + 3] + mask(s[next(m).value.pos + 3..to])
  {
    WrittenStep(mask, next, s, m, to);
    NothingWritten(mask, next, s, to);
  }

  lemma {:induction false} TailMoves(x: string, y: string, a: string, b: string, c: string, tail: string)
    requires x == a + b && y == a + c && b == c + tail
    ensures x == y + tail
  {
  }

  lemma {:induction false} TailJoins(x: string, y: string, z: string, tail: string, rest: string)
    requires x == y + rest && y == z + tail
    ensures x == z + (tail + rest)
  {
  }

  /** A colon at the end of a piece of the line is left where it is. */
  ghost predicate LeavesColon(mask: string -> string, s: string, at: nat, i: nat)
    requires at <= i < |s|
  {
    mask(s[at..i + 1]) == mask(s[at..i]) + ":"
  }

  /** The authority at the stop after `m` ends with the colon at `i`, which `mask` leaves. */
  ghost predicate EndsWithColon(mask: string -> string, next: nat -> Option<Stop>, s: string, m: nat, i: nat) {
    m <= i < |s| && next(m).Some? && next(m).value.pos + 3 <= i && next(m).value.end == i + 1
    && LeavesColon(mask, s, next(m).value.pos + 3, i)
  }

  lemma {:induction false} ColonIsLast(
    mask: string -> string, next: nat -> Option<Stop>, s: string, from: nat, m: nat, i: nat)
    requires Scans(next, s) && from <= |s| && Resumes(next, s, from, m) && EndsWithColon(mask, next, s, m, i)
    ensures from <= i && Written(mask, next, s, from, i + 1) == Written(mask, next, s, from, i) + ":"
  {
    var pos := next(m).value.pos;
    ResumesLater(next, s, from, m);
    WrittenSplits(mask, next, s, from, m, i + 1);
    WrittenSplits(mask, next, s, from, m, i);
    WrittenToAuthority(mask, next, s, m, i);
    WrittenToAuthority(mask, next, s, m, i + 1);
    TailMoves(Written(mask, next, s, m, i + 1), Written(mask, next, s, m, i),
              s[m..pos + 3], mask(s[pos + 3..i + 1]), mask(s[pos + 3..i]), ":");
    TailMoves(Written(mask, next, s, from, i + 1), Written(mask, next, s, from, i), Written(mask, next, s, from, m),
              Written(mask, next, s, m, i + 1), Written(mask, next, s, m, i), ":");
  }

  lemma {:induction false} WrittenSplitsAtColon(
    mask: string -> string, next: nat -> Option<Stop>, s: string, from: nat, m: nat, i: nat)
    requires Scans(next, s) && from <= |s| && Resumes(next, s, from, m) && EndsWithColon(mask, next, s, m, i)
    ensures from <= i
    ensures Written(mask, next, s, from, |s|)
         == Written(mask, next, s, from, i) + (":" + Written(mask, next, s, i + 1, |s|))
  {
    ResumesNext(next, s, from, m);
    WrittenSplits(mask, next, s, from, i + 1, |s|);
    ColonIsLast(mask, next, s, from, m, i);
    TailJoins(Written(mask, next, s, from, |s|), Written(mask, next, s, from, i + 1), Written(mask, next, s, from, i),
              ":", Written(mask, next, s, i + 1, |s|));
  }

  /** At a stop: everything before it, its scheme, its authority and the rest. */
  lemma {:induction false} WrittenSplitsAtStop(
    mask: string -> string, next: nat -> Option<Stop>, s: string, from: nat, m: nat)
    requires Scans(next, s) && from <= |s| && m <= |s| && Resumes(next, s, from, m) && next(m).Some?
    ensures var stop := next(m).value;
            from <= stop.pos
            && Written(mask, next, s, from, |s|)
            == Written(mask, next, s, from, stop.pos)
             + (s[stop.pos..stop.pos + 3]
                + (mask(s[stop.pos + 3..stop.end]) + Written(mask, next, s, stop.end, |s|)))
  {
    var stop := next(m).value;
    var rest := mask(s[stop.pos + 3..stop.end]) + Written(mask, next, s, stop.end, |s|);
    ResumesLater(next, s, from, m);
    WrittenSplits(mask, next, s, from, m, |s|);
    WrittenSplits(mask, next, s, from, m, stop.pos);
    WrittenStep(mask, next, s, m, |s|);
    assert Written(mask, next, s, m, stop.pos) == s[m..stop.pos];
    StopJoins(Written(mask, next, s, from, |s|), Written(mask, next, s, from, m), s[m..stop.pos + 3], rest,
              Written(mask, next, s, from, stop.pos), s[m..stop.pos], s[stop.pos..stop.pos + 3]);
  }

  lemma {:induction false} StopJoins(
    x: string, before: string, lead: string, rest: string, y: string, plain: string, scheme: string)
    requires x == before + (lead + rest) && lead == plain + scheme && y == before + plain
    ensures x == y + (scheme + rest)
  {
    assert (plain + scheme) + rest == plain + (scheme + rest);
  }

  /** Resumed before the next stop's authority, the scan writes on what stands there. */
  lemma {:induction false} WritesOn(
    mask: string -> string, next: nat -> Option<Stop>, s: string, from: nat, end: nat) returns (rest: string)
    requires Scans(next, s) && from <= end <= |s| && (next(from).Some? ==> end <= next(from).value.pos + 3)
    ensures Written(mask, next, s, from, |s|) == s[from..end] + rest
  {
    if next(from).None? {
      rest := s[end..|s|];
      assert s[from..|s|] == s[from..end] + rest;
    } else {
      var stop := next(from).value;
      var tail := mask(s[stop.pos + 3..stop.end]) + Written(mask, next, s, stop.end, |s|);
      rest := s[end..stop.pos + 3] + tail;
      WrittenStep(mask, next, s, from, |s|);
      assert s[from..stop.pos + 3] == s[from..end] + s[end..stop.pos + 3];
      WritesOnJoins(Written(mask, next, s, from, |s|), s[from..end], s[end..stop.pos + 3], tail);
    }
  }

  lemma {:induction false} WritesOnJoins(x: string, a: string, b: string, tail: string)
    requires x == (a + b) + tail
    ensures x == a + (b + tail)
  {
  }

  // ---- The redactor's scan ----

  function StopAfter(s: string, from: nat): Option<Stop> {
    if from <= |s| && FindSchemeFrom(s, from).Some? then
      var pos := FindSchemeFrom(s, from).value;
      Some(Stop(pos, AuthorityEnd(s, pos + 3)))
    else None
  }

  function Scan(s: string): nat -> Option<Stop> {
    (from: nat) => StopAfter(s, from)
  }

  lemma {:induction false} ScanScans(s: string)
    ensures Scans(Scan(s), s)
  {
  }

  /** A found `://` is the first stop after some resumption. */
  lemma {:induction false} FoundAfterResuming(s: string, from: nat, i: nat) returns (m: nat)
    requires from <= |s| && IsFound(s, from, i)
    ensures Scans(Scan(s), s) && Resumes(Scan(s), s, from, m) && m <= i
    ensures i + 3 <= |s| && StopAfter(s, m) == Some(Stop(i, AuthorityEnd(s, i + 3)))
    decreases |s| - from
  {
    ScanScans(s);
    var pos := FindSchemeFrom(s, from).value;
    if i == pos {
      m := from;
    } else {
      m := FoundAfterResuming(s, AuthorityEnd(s, pos + 3), i);
    }
  }

  lemma {:induction false} LeadOfRest(s: string, from: nat, pos: nat)
    requires from <= |s| && FindSchemeFrom(s, from) == Some(pos)
    ensures FindScheme(From(s, from)).Some? && Lead(From(s, from)) == s[from..pos + 3]
  {
    SchemeOfRest(s, from);
  }

  /** The redaction of a line, authorities written by `mask`. */
  function RedactBy(mask: string -> string, s: string): string
    decreases |s|
  {
    if FindScheme(s).None? then s
    else Lead(s) + (mask(FirstAuthority(s)) + RedactBy(mask, Remainder(s)))
  }

  lemma {:induction false} RedactsByMasking(s: string)
    ensures RedactFrom(s) == RedactBy(Masked, s)
    decreases |s|
  {
    if FindScheme(s).Some? {
      RedactsByMasking(Remainder(s));
    }
  }

  lemma {:induction false} NoSchemeInRest(mask: string -> string, s: string, from: nat)
    requires from <= |s| && FindSchemeFrom(s, from).None?
    ensures RedactBy(mask, From(s, from)) == s[from..]
  {
    SchemeOfRest(s, from);
  }

  lemma {:induction false} RedactsRest(mask: string -> string, s: string, from: nat, pos: nat)
    requires from <= |s| && FindSchemeFrom(s, from) == Some(pos)
    ensures RedactBy(mask, From(s, from))
         == s[from..pos + 3] + (mask(AuthorityAt(s, pos + 3)) + RedactBy(mask, From(s, AuthorityEnd(s, pos + 3))))
  {
    LeadOfRest(s, from, pos);
    RestCuts(s, from, pos);
  }

  /** `out` writes what stands up to the next stop, its authority and then what `out` writes after it. */
  ghost predicate StepsAt(
    out: nat -> string, mask: string -> string, next: nat -> Option<Stop>, s: string, from: nat)
    requires Scans(next, s) && from <= |s|
  {
    out(from) ==
    match next(from)
    case None => s[from..]
    case Some(stop) => s[from..stop.pos + 3] + (mask(s[stop.pos + 3..stop.end]) + out(stop.end))
  }

  ghost predicate GoesByStops(out: nat -> string, mask: string -> string, next: nat -> Option<Stop>, s: string)
    requires Scans(next, s)
  {
    forall from: nat :: from <= |s| ==> StepsAt(out, mask, next, s, from)
  }

  lemma {:induction false} WritesByStops(
    out: nat -> string, mask: string -> string, next: nat -> Option<Stop>, s: string, from: nat)
    requires Scans(next, s) && GoesByStops(out, mask, next, s) && from <= |s|
    ensures out(from) == Written(mask, next, s, from, |s|)
    decreases |s| - from
  {
    assert StepsAt(out, mask, next, s, from);
    if next(from).Some? {
      WritesByStops(out, mask, next, s, next(from).value.end);
      WrittenStep(mask, next, s, from, |s|);
    } else {
      assert s[from..] == s[from..|s|];
    }
  }

  /** What redaction makes of the line from a place on. */
  function RedactedFrom(mask: string -> string, s: string): nat -> string {
    (from: nat) => if from <= |s| then RedactBy(mask, From(s, from)) else ""
  }

  lemma {:induction false} RedactedAt(mask: string -> string, s: string, from: nat)
    requires from <= |s|
    ensures RedactedFrom(mask, s)(from) == RedactBy(mask, From(s, from))
  {
  }

  lemma {:induction false} RedactedToEnd(mask: string -> string, s: string, from: nat)
    requires from <= |s| && StopAfter(s, from).None?
    ensures RedactedFrom(mask, s)(from) == s[from..]
  {
    RedactedAt(mask, s, from);
    NoSchemeInRest(mask, s, from);
  }

  lemma {:induction false} RedactedStep(mask: string -> string, s: string, from: nat, pos: nat, end: nat)
    requires from <= |s| && StopAfter(s, from) == Some(Stop(pos, end))
    ensures from <= pos && pos + 3 <= end <= |s|
    ensures RedactedFrom(mask, s)(from)
         == s[from..pos + 3] + (mask(s[pos + 3..end]) + RedactedFrom(mask, s)(end))
  {
    RedactedAt(mask, s, from);
    RedactedAt(mask, s, end);
    RedactsRest(mask, s, from, pos);
  }

  lemma {:induction false} StepsByItsScan(mask: string -> string, s: string, from: nat)
    requires Scans(Scan(s), s) && from <= |s|
    ensures StepsAt(RedactedFrom(mask, s), mask, Scan(s), s, from)
  {
    match StopAfter(s, from)
    case None => RedactedToEnd(mask, s, from);
    case Some(stop) => RedactedStep(mask, s, from, stop.pos, stop.end);
  }

  lemma {:induction false} GoesByItsScan(mask: string -> string, s: string)
    ensures Scans(Scan(s), s) && GoesByStops(RedactedFrom(mask, s), mask, Scan(s), s)
  {
    ScanScans(s);
    forall from: nat | from <= |s| {
      StepsByItsScan(mask, s, from);
    }
  }

  /** The redactor writes what its scan writes. */
  lemma {:induction false} RedactsByScan(mask: string -> string, s: string)
    ensures Scans(Scan(s), s) && RedactBy(mask, s) == Written(mask, Scan(s), s, 0, |s|)
  {
    GoesByItsScan(mask, s);
    WritesByStops(RedactedFrom(mask, s), mask, Scan(s), s, 0);
    RedactedAt(mask, s, 0);
    assert From(s, 0) == s;
  }

  // Cutting a line short leaves what is written before the cut.

  lemma {:induction false} CutScheme(s: string, to: nat, from: nat)
    requires from <= to <= |s|
    ensures FindSchemeFrom(s[..to], from) ==
            match FindSchemeFrom(s, from)
            case Some(pos) => if pos + 3 <= to then Some(pos) else None
            case None => None
  {
    var t := s[..to];
    assert forall i: nat :: SchemeAt(t, i) <==> SchemeAt(s, i) && i + 3 <= to;
  }

  lemma {:induction false} CutAuthority(s: string, to: nat, at: nat)
    requires at <= to <= |s|
    ensures AuthorityEnd(s[..to], at) == Least(AuthorityEnd(s, at), to)
  {
    var t, end := s[..to], AuthorityEnd(s[..to], at);
    assert forall i :: at <= i < end ==> t[i] == s[i];
    assert end < to ==> t[end] == s[end];
  }

  lemma {:induction false} StopInCut(s: string, to: nat, from: nat)
    requires from <= to <= |s|
    ensures StopAfter(s[..to], from) ==
            match StopAfter(s, from)
            case Some(stop) => if stop.pos + 3 <= to then Some(Stop(stop.pos, Least(stop.end, to))) else None
            case None => None
  {
    CutScheme(s, to, from);
    if FindSchemeFrom(s, from).Some? && FindSchemeFrom(s, from).value + 3 <= to {
      CutAuthority(s, to, FindSchemeFrom(s, from).value + 3);
    }
  }

  /** A scan of a line cut short, as far as the whole line's scan tells. */
  ghost predicate IsCutOf(short: nat -> Option<Stop>, next: nat -> Option<Stop>, to: nat) {
    forall from: nat :: from <= to ==>
      short(from) ==
      match next(from)
      case Some(stop) => if stop.pos + 3 <= to then Some(Stop(stop.pos, Least(stop.end, to))) else None
      case None => None
  }

  lemma {:induction false} CutIsWritten(
    mask: string -> string, short: nat -> Option<Stop>, next: nat -> Option<Stop>, s: string, t: string,
    from: nat, to: nat)
    requires from <= to <= |s| && t == s[..to] && Scans(next, s) && Scans(short, t) && IsCutOf(short, next, to)
    ensures Written(mask, short, t, from, to) == Written(mask, next, s, from, to)
    decreases |s| - from
  {
    if next(from).None? || to < next(from).value.pos + 3 {
      CutSlice(s, t, to, from, to);
    } else {
      var pos, end := next(from).value.pos, Least(next(from).value.end, to);
      CutIsWritten(mask, short, next, s, t, end, to);
      WrittenStep(mask, next, s, from, to);
      WrittenStep(mask, short, t, from, to);
      CutSlice(s, t, to, from, pos + 3);
      CutSlice(s, t, to, pos + 3, end);
    }
  }

  lemma {:induction false} CutSlice(s: string, t: string, to: nat, a: nat, b: nat)
    requires a <= b <= to <= |s| && t == s[..to]
    ensures t[a..b] == s[a..b]
  {
  }

  /** Redacting the beginning of a line writes what the line's scan writes up to there. */
  lemma {:induction false} RedactsCut(mask: string -> string, s: string, to: nat)
    requires to <= |s|
    ensures Scans(Scan(s), s) && RedactBy(mask, s[..to]) == Written(mask, Scan(s), s, 0, to)
  {
    var t := s[..to];
    ScanScans(s);
    ScanScans(t);
    RedactsByScan(mask, t);
    forall from: nat | from <= to {
      StopInCut(s, to, from);
    }
    CutIsWritten(mask, Scan(t), Scan(s), s, t, 0, to);
  }

  // ---- After every `://` ----

  lemma {:induction false} StopIsMasked(
    mask: string -> string, next: nat -> Option<Stop>, s: string, m: nat, i: nat, end: nat,
    whole: string, before: string)
    returns (rest: string)
    requires Scans(next, s) && m <= |s| && Resumes(next, s, 0, m) && next(m) == Some(Stop(i, end)) && SchemeAt(s, i)
    requires i <= |s| && whole == Written(mask, next, s, 0, |s|) && before == Written(mask, next, s, 0, i)
    ensures i + 3 <= end <= |s| && whole == before + ("://" + (mask(s[i + 3..end]) + rest))
  {
    rest := Written(mask, next, s, end, |s|);
    assert s[i..i + 3] == "://";
    WrittenSplitsAtStop(mask, next, s, 0, m);
  }

  /** After a found `://` its authority is written masked. */
  lemma {:induction false} FoundIsMasked(mask: string -> string, s: string, i: nat) returns (rest: string)
    requires SchemeAt(s, i) && IsFound(s, 0, i)
    ensures RedactBy(mask, s) == RedactBy(mask, s[..i]) + ("://" + (mask(AuthorityAt(s, i + 3)) + rest))
  {
    var m := FoundAfterResuming(s, 0, i);
    RedactsByScan(mask, s);
    RedactsCut(mask, s, i);
    rest := StopIsMasked(mask, Scan(s), s, m, i, AuthorityEnd(s, i + 3), RedactBy(mask, s), RedactBy(mask, s[..i]));
  }

  lemma {:induction false} MaskedWithColon(a: string)
    ensures Masked(a + ":") == Masked(a) + ":"
  {
    var longer := a + ":";
    if HasPassword(a) {
      var colon, at := Find(a, ':').value, Find(a, '@').value;
      FirstAt(longer, ':', colon);
      FirstAt(longer, '@', at);
      assert longer[..colon] == User(a) && longer[at..] == Host(a) + ":";
      assert (User(a) + (":***" + Host(a))) + ":" == User(a) + (":***" + (Host(a) + ":"));
    } else {
      NoPasswordWithColon(a);
    }
  }

  lemma {:induction false} NoPasswordWithColon(a: string)
    requires !HasPassword(a)
    ensures !HasPassword(a + ":")
  {
    var longer := a + ":";
    if Find(a, '@').Some? {
      FirstAt(longer, '@', Find(a, '@').value);
      if Find(a, ':').Some? {
        FirstAt(longer, ':', Find(a, ':').value);
      }
    }
  }

  /** The authority after a `://` that runs into `i` ends with the colon there. */
  lemma {:induction false} RunsUpToColon(s: string, j: nat, i: nat)
    requires SchemeAt(s, j) && SchemeAt(s, i) && RunsInto(s, j, i)
    ensures j + 3 <= i && s[i] == ':' && AuthorityEnd(s, j + 3) == i + 1
  {
    assert EndsAuthority(s[i + 1]) && !EndsAuthority(s[i]);
  }

  /** The next `://` begins no earlier than three short of this one's authority's end. */
  lemma {:induction false} NextSchemeIsLate(s: string, i: nat, pos: nat)
    requires SchemeAt(s, i) && SchemeAt(s, pos) && i < pos
    ensures AuthorityEnd(s, i + 3) <= pos + 3
  {
    assert pos >= i + 3 && EndsAuthority(s[pos + 1]);
  }

  lemma {:induction false} SlashesThenAuthority(s: string, i: nat, rest: string)
    requires SchemeAt(s, i)
    ensures ":" + (s[i + 1..AuthorityEnd(s, i + 3)] + rest) == "://" + (AuthorityAt(s, i + 3) + rest)
  {
    var end := AuthorityEnd(s, i + 3);
    assert s[i + 1..end] == "//" + s[i + 3..end];
  }

  lemma {:induction false} ColonIsKept(
    mask: string -> string, next: nat -> Option<Stop>, s: string, m: nat, i: nat, whole: string, before: string)
    returns (rest: string)
    requires Scans(next, s) && Resumes(next, s, 0, m) && EndsWithColon(mask, next, s, m, i) && SchemeAt(s, i)
    requires next(i + 1).Some? ==> AuthorityEnd(s, i + 3) <= next(i + 1).value.pos + 3
    requires whole == Written(mask, next, s, 0, |s|) && before == Written(mask, next, s, 0, i)
    ensures whole == before + ("://" + (AuthorityAt(s, i + 3) + rest))
  {
    WrittenSplitsAtColon(mask, next, s, 0, m, i);
    rest := WritesOn(mask, next, s, i + 1, AuthorityEnd(s, i + 3));
    SlashesThenAuthority(s, i, rest);
  }

  lemma {:induction false} PassedOverStop(mask: string -> string, s: string, j: nat, i: nat) returns (m: nat)
    requires IsFound(s, 0, j) && j + 3 <= i < |s| && AuthorityEnd(s, j + 3) == i + 1
    requires LeavesColon(mask, s, j + 3, i)
    ensures Scans(Scan(s), s) && Resumes(Scan(s), s, 0, m) && EndsWithColon(mask, Scan(s), s, m, i)
  {
    m := FoundAfterResuming(s, 0, j);
    ColonEnds(mask, Scan(s), s, m, j, i);
  }

  lemma {:induction false} RunIntoByFound(s: string, i: nat) returns (j: nat)
    requires SchemeAt(s, i) && !IsFound(s, 0, i)
    ensures IsFound(s, 0, j) && j + 3 <= i < |s| && s[i] == ':' && AuthorityEnd(s, j + 3) == i + 1
  {
    j := PassedOverIsRunInto(s, 0, i);
    FoundIsScheme(s, 0, j);
    RunsUpToColon(s, j, i);
  }

  lemma {:induction false} MaskedToColon(s: string, at: nat, i: nat)
    requires at <= i < |s| && s[i] == ':'
    ensures LeavesColon(Masked, s, at, i)
  {
    assert s[at..i + 1] == s[at..i] + ":";
    MaskedWithColon(s[at..i]);
  }

  lemma {:induction false} ColonEnds(
    mask: string -> string, next: nat -> Option<Stop>, s: string, m: nat, j: nat, i: nat)
    requires m <= j && j + 3 <= i < |s| && next(m) == Some(Stop(j, i + 1))
    requires LeavesColon(mask, s, j + 3, i)
    ensures EndsWithColon(mask, next, s, m, i)
  {
  }

  lemma {:induction false} NextStopIsLate(s: string, i: nat)
    requires SchemeAt(s, i)
    ensures StopAfter(s, i + 1).Some? ==> AuthorityEnd(s, i + 3) <= StopAfter(s, i + 1).value.pos + 3
  {
    if FindSchemeFrom(s, i + 1).Some? {
      NextSchemeIsLate(s, i, FindSchemeFrom(s, i + 1).value);
    }
  }

  /** After a `://` that is passed over its authority is written as it is. */
  lemma {:induction false} PassedOverIsKept(mask: string -> string, s: string, j: nat, i: nat) returns (rest: string)
    requires SchemeAt(s, i) && IsFound(s, 0, j) && j + 3 <= i && AuthorityEnd(s, j + 3) == i + 1
    requires LeavesColon(mask, s, j + 3, i)
    ensures RedactBy(mask, s) == RedactBy(mask, s[..i]) + ("://" + (AuthorityAt(s, i + 3) + rest))
  {
    var m := PassedOverStop(mask, s, j, i);
    NextStopIsLate(s, i);
    RedactsByScan(mask, s);
    RedactsCut(mask, s, i);
    rest := ColonIsKept(mask, Scan(s), s, m, i, RedactBy(mask, s), RedactBy(mask, s[..i]));
  }

  lemma {:induction false} FoundIsWrittenMasked(s: string, i: nat) returns (rest: string)
    requires SchemeAt(s, i) && IsFound(s, 0, i)
    ensures RedactFrom(s) == RedactFrom(s[..i]) + ("://" + (Masked(AuthorityAt(s, i + 3)) + rest))
  {
    RedactsByMasking(s);
    RedactsByMasking(s[..i]);
    rest := FoundIsMasked(Masked, s, i);
  }

  lemma {:induction false} UnfoundIsKept(mask: string -> string, s: string, i: nat) returns (rest: string)
    requires SchemeAt(s, i) && !IsFound(s, 0, i)
    requires forall at: nat :: at <= i ==> LeavesColon(mask, s, at, i)
    ensures RedactBy(mask, s) == RedactBy(mask, s[..i]) + ("://" + (AuthorityAt(s, i + 3) + rest))
  {
    var j := RunIntoByFound(s, i);
    rest := PassedOverIsKept(mask, s, j, i);
  }

  lemma {:induction false} PassedOverIsWritten(s: string, i: nat) returns (rest: string)
    requires SchemeAt(s, i) && !IsFound(s, 0, i)
    ensures RedactFrom(s) == RedactFrom(s[..i]) + ("://" + (AuthorityAt(s, i + 3) + rest))
  {
    forall at: nat | at <= i {
      MaskedToColon(s, at, i);
    }
    rest := UnfoundIsKept(Masked, s, i);
    RedactsByMasking(s);
    RedactsByMasking(s[..i]);
  }

  /** What follows every `://` of every line in the output, after what redaction
      writes for all before it: the authority masked, or as it was if the `://`
      is passed over. So a password is masked exactly when its `://` is found. */
  lemma {:induction false} AfterEveryScheme(s: string, i: nat) returns (rest: string)
    requires SchemeAt(s, i)
    ensures var authority := AuthorityAt(s, i + 3);
            RedactFrom(s)
            == RedactFrom(s[..i]) + ("://" + ((if PassedOver(s, i) then authority else Masked(authority)) + rest))
  {
    FoundUnlessPassedOver(s, i);
    if PassedOver(s, i) {
      rest := PassedOverIsWritten(s, i);
    } else {
      rest := FoundIsWrittenMasked(s, i);
    }
  }
}
