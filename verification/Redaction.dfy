/** Masking the passwords of URLs quoted in free text before it is logged. */
module Redaction {

  import opened Wrappers

  // ---- The scan ----

  predicate IsWhitespace(c: char) {
    var n := c as int;
    9 <= n <= 13 || n == 0x20 || n == 0x85 || n == 0xA0 || n == 0x1680 || 0x2000 <= n <= 0x200A
    || n == 0x2028 || n == 0x2029 || n == 0x202F || n == 0x205F || n == 0x3000
  }

  predicate EndsAuthority(c: char) {
    c == '/' || c == '?' || c == '#' || IsWhitespace(c)
  }

  predicate SchemeAt(s: string, i: nat) {
    i + 3 <= |s| && s[i] == ':' && s[i + 1] == '/' && s[i + 2] == '/'
  }

  /** Where the first `://` stands. */
  function FindScheme(s: string): (r: Option<nat>)
    ensures r.Some? ==> SchemeAt(s, r.value)
    ensures forall i: nat :: i < (if r.Some? then r.value else |s|) ==> !SchemeAt(s, i)
  {
    FindSchemeFrom(s, 0)
  }

  function FindSchemeFrom(s: string, from: nat): (r: Option<nat>)
    requires from <= |s|
    ensures r.Some? ==> from <= r.value && SchemeAt(s, r.value)
    ensures forall i: nat :: from <= i < (if r.Some? then r.value else |s|) ==> !SchemeAt(s, i)
    decreases |s| - from
  {
    if from == |s| then None else if SchemeAt(s, from) then Some(from) else FindSchemeFrom(s, from + 1)
  }

  /** How long the authority at the start of `s` is. */
  function AuthorityLength(s: string): (n: nat)
    ensures n <= |s| && (n < |s| ==> EndsAuthority(s[n]))
    ensures forall i :: 0 <= i < n ==> !EndsAuthority(s[i])
  {
    AuthorityEnd(s, 0)
  }

  function AuthorityEnd(s: string, from: nat): (n: nat)
    requires from <= |s|
    ensures from <= n <= |s| && (n < |s| ==> EndsAuthority(s[n]))
    ensures forall i :: from <= i < n ==> !EndsAuthority(s[i])
    decreases |s| - from
  {
    if from == |s| || EndsAuthority(s[from]) then from else AuthorityEnd(s, from + 1)
  }

  function Find(s: string, c: char): (r: Option<nat>)
    ensures r.Some? ==> r.value < |s| && s[r.value] == c
    ensures forall i :: 0 <= i < (if r.Some? then r.value else |s|) ==> s[i] != c
  {
    FindFrom(s, c, 0)
  }

  function FindFrom(s: string, c: char, from: nat): (r: Option<nat>)
    requires from <= |s|
    ensures r.Some? ==> from <= r.value < |s| && s[r.value] == c
    ensures forall i :: from <= i < (if r.Some? then r.value else |s|) ==> s[i] != c
    decreases |s| - from
  {
    if from == |s| then None else if s[from] == c then Some(from) else FindFrom(s, c, from + 1)
  }

  /** A user name and a password stand before the `@`. */
  predicate HasPassword(authority: string) {
    Find(authority, '@').Some? && Find(authority, ':').Some?
    && Find(authority, ':').value < Find(authority, '@').value
  }

  function User(authority: string): string
    requires HasPassword(authority)
  {
    authority[..Find(authority, ':').value]
  }

  function Password(authority: string): string
    requires HasPassword(authority)
  {
    authority[Find(authority, ':').value + 1..Find(authority, '@').value]
  }

  function Host(authority: string): string
    requires HasPassword(authority)
  {
    authority[Find(authority, '@').value..]
  }

  function Masked(authority: string): string {
    if HasPassword(authority) then User(authority) + (":***" + Host(authority)) else authority
  }

  // A line with a scheme: what leads up to the authority, the authority, the rest.

  function Lead(s: string): (lead: string)
    requires FindScheme(s).Some?
    ensures |lead| >= 3
  {
    s[..FindScheme(s).value + 3]
  }

  function Beyond(s: string): string
    requires FindScheme(s).Some?
  {
    s[FindScheme(s).value + 3..]
  }

  function FirstAuthority(s: string): (authority: string)
    requires FindScheme(s).Some?
    ensures forall i :: 0 <= i < |authority| ==> !EndsAuthority(authority[i])
  {
    Beyond(s)[..AuthorityLength(Beyond(s))]
  }

  function Remainder(s: string): (rest: string)
    requires FindScheme(s).Some?
    ensures |rest| < |s| && (rest != "" ==> EndsAuthority(rest[0]))
  {
    Beyond(s)[AuthorityLength(Beyond(s))..]
  }

  function RedactFrom(s: string): string
    decreases |s|
  {
    if FindScheme(s).None? then s
    else Lead(s) + (Masked(FirstAuthority(s)) + RedactFrom(Remainder(s)))
  }

  lemma Regroups(a: string, b: string, c: string, d: string)
    ensures a + (b + (c + d)) == (a + b + c) + d
  {
    assert b + (c + d) == (b + c) + d;
    assert a + b + c == a + (b + c);
  }

  lemma OneMoreAuthority(out: string, rest: string)
    requires FindScheme(rest).Some?
    ensures out + RedactFrom(rest)
         == (out + Lead(rest) + Masked(FirstAuthority(rest))) + RedactFrom(Remainder(rest))
  {
    Regroups(out, Lead(rest), Masked(FirstAuthority(rest)), RedactFrom(Remainder(rest)));
  }

  method RedactUserinfoPasswords(line: string) returns (out: string)
    ensures out == RedactFrom(line)
  {
    out := "";
    var rest := line;
    while true
      invariant RedactFrom(line) == out + RedactFrom(rest)
      decreases |rest|
    {
      var pos := FindScheme(rest);
      if pos.None? {
        break;
      }
      OneMoreAuthority(out, rest);
      var after := rest[pos.value + 3..];
      var authEnd := AuthorityLength(after);
      var masked := MaskAuthority(after[..authEnd]);
      assert rest[..pos.value + 3] == Lead(rest) && after[authEnd..] == Remainder(rest);
      out := out + rest[..pos.value + 3] + masked;
      rest := after[authEnd..];
    }
    out := out + rest;
  }

  /** One authority as it is written out. */
  method MaskAuthority(authority: string) returns (out: string)
    ensures out == Masked(authority)
  {
    var at, colon := Find(authority, '@'), Find(authority, ':');
    if at.Some? && colon.Some? && colon.value < at.value {
      out := authority[..colon.value] + (":***" + authority[at.value..]);
    } else {
      out := authority;
    }
  }

  // ---- The scan as pieces ----

  datatype Piece = Plain(text: string) | Authority(text: string)

  /** The line cut at every authority the left-to-right scan finds. */
  function Pieces(s: string): seq<Piece>
    decreases |s|
  {
    if FindScheme(s).None? then [Plain(s)]
    else [Plain(Lead(s)), Authority(FirstAuthority(s))] + Pieces(Remainder(s))
  }

  function Glued(pieces: seq<Piece>): string {
    if pieces == [] then "" else pieces[0].text + Glued(pieces[1..])
  }

  function MaskedPiece(p: Piece): Piece {
    match p
    case Plain(_) => p
    case Authority(a) => Authority(Masked(a))
  }

  function MaskedPieces(pieces: seq<Piece>): seq<Piece> {
    if pieces == [] then [] else [MaskedPiece(pieces[0])] + MaskedPieces(pieces[1..])
  }

  lemma GluedTwo(a: Piece, b: Piece, rest: seq<Piece>)
    ensures Glued([a, b] + rest) == a.text + (b.text + Glued(rest))
    ensures MaskedPieces([a, b] + rest) == [MaskedPiece(a), MaskedPiece(b)] + MaskedPieces(rest)
  {
    assert ([a, b] + rest)[1..] == [b] + rest && ([b] + rest)[1..] == rest;
  }

  lemma GluedMasked(plain: string, authority: string, rest: seq<Piece>)
    ensures Glued(MaskedPieces([Plain(plain), Authority(authority)] + rest))
         == plain + (Masked(authority) + Glued(MaskedPieces(rest)))
  {
    GluedTwo(Plain(plain), Authority(authority), rest);
    GluedTwo(Plain(plain), Authority(Masked(authority)), MaskedPieces(rest));
  }

  lemma CutsBack(s: string, n: nat)
    requires n <= |s|
    ensures s[..n] + s[n..] == s
  {
  }

  lemma FirstFound(s: string, i: nat)
    requires SchemeAt(s, i) && forall j: nat :: j < i ==> !SchemeAt(s, j)
    ensures FindScheme(s) == Some(i)
  {
  }

  lemma AuthorityEndsAt(s: string, n: nat)
    requires n <= |s| && (n < |s| ==> EndsAuthority(s[n])) && forall i :: 0 <= i < n ==> !EndsAuthority(s[i])
    ensures AuthorityLength(s) == n
  {
  }

  lemma FirstAt(s: string, c: char, i: nat)
    requires i < |s| && s[i] == c && forall j :: 0 <= j < i ==> s[j] != c
    ensures Find(s, c) == Some(i)
  {
  }

  lemma MaskedReads(user: string, host: string)
    requires host != "" && host[0] == '@'
    requires forall j :: 0 <= j < |user| ==> user[j] != ':' && user[j] != '@'
    ensures var m := user + (":***" + host);
            HasPassword(m) && User(m) == user && Password(m) == "***" && Host(m) == host
  {
    var m := user + (":***" + host);
    FirstAt(m, ':', |user|);
    FirstAt(m, '@', |user| + 4);
    assert m[|user| + 1..|user| + 4] == "***";
  }

  /** Masking keeps the user and the host, and leaves three stars for a password. */
  lemma MaskedKeepsUserAndHost(authority: string)
    requires HasPassword(authority)
    ensures HasPassword(Masked(authority))
    ensures User(Masked(authority)) == User(authority) && Host(Masked(authority)) == Host(authority)
    ensures Password(Masked(authority)) == "***"
  {
    MaskedReads(User(authority), Host(authority));
  }

  /** Of a user, a colon, a password, an `@` and a rest, that being the first `@`
      and that the first colon, the password alone is replaced. */
  lemma MaskedExactly(authority: string, user: string, password: string, host: string)
    requires forall j :: 0 <= j < |user| ==> user[j] != ':' && user[j] != '@'
    requires forall j :: 0 <= j < |password| ==> password[j] != '@'
    ensures authority == user + (":" + (password + ("@" + host))) ==> Masked(authority) == user + (":***@" + host)
  {
    if authority == user + (":" + (password + ("@" + host))) {
      FirstAt(authority, ':', |user|);
      FirstAt(authority, '@', |user| + 1 + |password|);
      assert authority[..|user|] == user && authority[|user| + 1 + |password|..] == "@" + host;
      assert ":***" + ("@" + host) == ":***@" + host;
    }
  }

  lemma CutInParts(a: string, colon: nat, at: nat)
    requires colon < at < |a| && a[colon] == ':' && a[at] == '@'
    ensures a == a[..colon] + (":" + (a[colon + 1..at] + ("@" + a[at + 1..])))
  {
    assert a[colon..colon + 1] == ":" && a[at..at + 1] == "@";
  }

  /** An authority that is changed has these parts. */
  lemma ChangedHasParts(authority: string) returns (user: string, password: string, host: string)
    ensures Masked(authority) != authority ==>
              authority == user + (":" + (password + ("@" + host)))
              && (forall j :: 0 <= j < |user| ==> user[j] != ':' && user[j] != '@')
              && (forall j :: 0 <= j < |password| ==> password[j] != '@')
  {
    user, password, host := "", "", "";
    if HasPassword(authority) {
      var colon, at := Find(authority, ':').value, Find(authority, '@').value;
      user, password, host := authority[..colon], authority[colon + 1..at], authority[at + 1..];
      CutInParts(authority, colon, at);
    }
  }

  /** What ends an authority: a slash, a question mark, a hash or white space (the Unicode property). */
  lemma AuthorityEndings(c: char)
    ensures EndsAuthority(c) <==>
            c in "/?#\t\n\r "
            || c as int in [0x0B, 0x0C, 0x85, 0xA0, 0x1680, 0x2000, 0x2001, 0x2002, 0x2003, 0x2004, 0x2005, 0x2006,
                           0x2007, 0x2008, 0x2009, 0x200A, 0x2028, 0x2029, 0x202F, 0x205F, 0x3000]
  {
    var n := c as int;
    assert 9 <= n <= 13 <==> n == 9 || n == 10 || n == 11 || n == 12 || n == 13;
    assert 0x2000 <= n <= 0x200A <==>
           n == 0x2000 || n == 0x2001 || n == 0x2002 || n == 0x2003 || n == 0x2004 || n == 0x2005 || n == 0x2006
           || n == 0x2007 || n == 0x2008 || n == 0x2009 || n == 0x200A;
  }

  lemma StaysClean(user: string, host: string)
    requires forall i :: 0 <= i < |user| ==> !EndsAuthority(user[i])
    requires forall i :: 0 <= i < |host| ==> !EndsAuthority(host[i])
    ensures var m := user + (":***" + host); forall i :: 0 <= i < |m| ==> !EndsAuthority(m[i])
  {
  }

  lemma MaskedIsClean(authority: string)
    requires forall i :: 0 <= i < |authority| ==> !EndsAuthority(authority[i])
    ensures forall i :: 0 <= i < |Masked(authority)| ==> !EndsAuthority(Masked(authority)[i])
    ensures Masked(Masked(authority)) == Masked(authority)
  {
    if HasPassword(authority) {
      MaskedKeepsUserAndHost(authority);
      StaysClean(User(authority), Host(authority));
    }
  }

  lemma RedactStartsAlike(s: string)
    requires s != ""
    ensures RedactFrom(s) != "" && RedactFrom(s)[0] == s[0]
  {
  }

  /** Cutting loses nothing: the pieces are the line. */
  lemma {:induction false} PiecesAreTheLine(s: string)
    ensures Glued(Pieces(s)) == s
    decreases |s|
  {
    if FindScheme(s).None? {
      assert Pieces(s)[1..] == [];
    } else {
      PiecesAreTheLine(Remainder(s));
      GluedTwo(Plain(Lead(s)), Authority(FirstAuthority(s)), Pieces(Remainder(s)));
      CutsBack(s, FindScheme(s).value + 3);
      CutsBack(Beyond(s), AuthorityLength(Beyond(s)));
    }
  }

  /** Redacting masks the authorities and touches no other piece. */
  lemma {:induction false} RedactsPieceByPiece(s: string)
    ensures RedactFrom(s) == Glued(MaskedPieces(Pieces(s)))
    decreases |s|
  {
    if FindScheme(s).None? {
      assert MaskedPieces(Pieces(s)) == [Plain(s)] && [Plain(s)][1..] == [];
    } else {
      RedactsPieceByPiece(Remainder(s));
      GluedMasked(Lead(s), FirstAuthority(s), Pieces(Remainder(s)));
    }
  }

  lemma PrefixScans(s: string, pos: nat, prefix: string)
    requires FindScheme(s) == Some(pos) && prefix == s[..pos + 3]
    ensures SchemeAt(prefix, pos) && forall j: nat :: j < pos ==> !SchemeAt(prefix, j)
  {
    forall j: nat | j < pos ensures !SchemeAt(prefix, j) {
      assert !SchemeAt(s, j);
    }
  }

  /** Scanning what redaction wrote finds the same places again, masked. */
  lemma ScanAgain(prefix: string, authority: string, rest: string, pos: nat)
    requires |prefix| == pos + 3 && SchemeAt(prefix, pos) && forall j: nat :: j < pos ==> !SchemeAt(prefix, j)
    requires forall i :: 0 <= i < |authority| ==> !EndsAuthority(authority[i])
    requires rest != "" ==> EndsAuthority(rest[0])
    ensures Pieces(prefix + (authority + rest)) == [Plain(prefix), Authority(authority)] + Pieces(rest)
  {
    var s := prefix + (authority + rest);
    assert s[..pos + 3] == prefix && s[pos + 3..] == authority + rest;
    assert forall j: nat :: j <= pos ==> (SchemeAt(s, j) <==> SchemeAt(prefix, j));
    FirstFound(s, pos);
    AuthorityEndsAt(authority + rest, |authority|);
    assert (authority + rest)[..|authority|] == authority && (authority + rest)[|authority|..] == rest;
  }

  lemma {:induction false} RedactedPieces(s: string)
    ensures Pieces(RedactFrom(s)) == MaskedPieces(Pieces(s))
    decreases |s|
  {
    if FindScheme(s).None? {
      assert Pieces(s)[1..] == [];
    } else {
      var rest := Remainder(s);
      RedactedPieces(rest);
      MaskedIsClean(FirstAuthority(s));
      if rest != "" {
        RedactStartsAlike(rest);
      } else {
        assert RedactFrom(rest) == "";
      }
      PrefixScans(s, FindScheme(s).value, Lead(s));
      ScanAgain(Lead(s), Masked(FirstAuthority(s)), RedactFrom(rest), FindScheme(s).value);
      GluedTwo(Plain(Lead(s)), Authority(FirstAuthority(s)), Pieces(rest));
    }
  }

  lemma {:induction false} AuthoritiesAreClean(s: string)
    ensures forall p :: p in Pieces(s) && p.Authority? ==> forall i :: 0 <= i < |p.text| ==> !EndsAuthority(p.text[i])
    decreases |s|
  {
    if FindScheme(s).Some? {
      AuthoritiesAreClean(Remainder(s));
    }
  }

  lemma {:induction false} MaskingTwiceIsOnce(pieces: seq<Piece>)
    requires forall p :: p in pieces && p.Authority? ==> forall i :: 0 <= i < |p.text| ==> !EndsAuthority(p.text[i])
    ensures MaskedPieces(MaskedPieces(pieces)) == MaskedPieces(pieces)
  {
    if pieces != [] {
      assert pieces[0] in pieces && forall p :: p in pieces[1..] ==> p in pieces;
      MaskingTwiceIsOnce(pieces[1..]);
      if pieces[0].Authority? {
        MaskedIsClean(pieces[0].text);
      }
    }
  }

  lemma RedactionIsIdempotent(s: string)
    ensures RedactFrom(RedactFrom(s)) == RedactFrom(s)
  {
    RedactsPieceByPiece(s);
    RedactsPieceByPiece(RedactFrom(s));
    RedactedPieces(s);
    AuthoritiesAreClean(s);
    MaskingTwiceIsOnce(Pieces(s));
  }

  lemma {:induction false} MaskedPieceAt(pieces: seq<Piece>, i: nat)
    requires i < |pieces|
    ensures |MaskedPieces(pieces)| == |pieces| && MaskedPieces(pieces)[i] == MaskedPiece(pieces[i])
  {
    if i == 0 {
      if |pieces| > 1 { MaskedPieceAt(pieces[1..], 0); }
    } else {
      MaskedPieceAt(pieces[1..], i - 1);
    }
  }

  /** No authority that the scan finds in redacted text shows a password, and
      each is the same user at the same host as before. */
  lemma FoundPasswordsAreMasked(s: string, i: nat)
    requires i < |Pieces(s)| && Pieces(s)[i].Authority?
    ensures |Pieces(RedactFrom(s))| == |Pieces(s)| && Pieces(RedactFrom(s))[i].Authority?
    ensures var before, after := Pieces(s)[i].text, Pieces(RedactFrom(s))[i].text;
            if HasPassword(before)
            then HasPassword(after) && Password(after) == "***"
                 && User(after) == User(before) && Host(after) == Host(before)
            else after == before
  {
    RedactedPieces(s);
    MaskedPieceAt(Pieces(s), i);
    if HasPassword(Pieces(s)[i].text) {
      MaskedKeepsUserAndHost(Pieces(s)[i].text);
    }
  }

  // ---- Which authorities the scan finds ----

  /** The scan, resumed at `from`, stops at the `://` at `i`. */
  predicate IsFound(s: string, from: nat, i: nat)
    requires from <= |s|
    decreases |s| - from
  {
    match FindSchemeFrom(s, from)
    case None => false
    case Some(pos) => i == pos || IsFound(s, AuthorityEnd(s, pos + 3), i)
  }

  /** The authority after the `://` at `j` runs on to `i`. */
  predicate RunsInto(s: string, j: nat, i: nat) {
    j < i <= |s| && forall k :: j + 3 <= k < i ==> !EndsAuthority(s[k])
  }

  lemma {:induction false} FoundIsScheme(s: string, from: nat, i: nat)
    requires from <= |s| && IsFound(s, from, i)
    ensures from <= i && SchemeAt(s, i)
    decreases |s| - from
  {
    var pos := FindSchemeFrom(s, from).value;
    if i != pos {
      FoundIsScheme(s, AuthorityEnd(s, pos + 3), i);
    }
  }

  /** No found `://` is run into by an earlier found one. */
  lemma {:induction false} FoundIsNotRunInto(s: string, from: nat, j: nat, i: nat)
    requires from <= |s| && IsFound(s, from, j) && IsFound(s, from, i) && j < i
    ensures !RunsInto(s, j, i)
    decreases |s| - from
  {
    var pos := FindSchemeFrom(s, from).value;
    var end := AuthorityEnd(s, pos + 3);
    if j == pos {
      FoundIsScheme(s, end, i);
      assert end < i;
    } else {
      FoundIsScheme(s, end, j);
      FoundIsNotRunInto(s, end, j, i);
    }
  }

  /** A `://` that the scan passes over is run into by one it found. */
  lemma {:induction false} PassedOverIsRunInto(s: string, from: nat, i: nat) returns (j: nat)
    requires from <= i && SchemeAt(s, i) && !IsFound(s, from, i)
    ensures IsFound(s, from, j) && RunsInto(s, j, i)
    decreases |s| - from
  {
    var pos := FindSchemeFrom(s, from).value;
    var end := AuthorityEnd(s, pos + 3);
    if i < end {
      j := pos;
    } else {
      j := PassedOverIsRunInto(s, end, i);
    }
  }

  /** Exactly which authorities are looked at: a `://` is found unless the
      authority after an earlier found one runs into it. */
  lemma FoundUnlessRunInto(s: string, i: nat)
    requires SchemeAt(s, i)
    ensures IsFound(s, 0, i) <==> forall j: nat :: IsFound(s, 0, j) && j < i ==> !RunsInto(s, j, i)
  {
    if IsFound(s, 0, i) {
      forall j: nat | IsFound(s, 0, j) && j < i ensures !RunsInto(s, j, i) {
        FoundIsNotRunInto(s, 0, j, i);
      }
    } else {
      var j := PassedOverIsRunInto(s, 0, i);
      assert IsFound(s, 0, j) && RunsInto(s, j, i);
    }
  }

  lemma SchemeOfRest(s: string, from: nat)
    requires from <= |s|
    ensures FindSchemeFrom(s, from) ==
            match FindScheme(s[from..]) { case Some(pos) => Some(from + pos) case None => None }
  {
    var rest := s[from..];
    assert forall i: nat :: from <= i ==> (SchemeAt(s, i) <==> SchemeAt(rest, i - from));
    assert forall i: nat :: SchemeAt(rest, i) <==> SchemeAt(s, i + from);
  }

  lemma EndOfRest(s: string, from: nat)
    requires from <= |s|
    ensures AuthorityEnd(s, from) == from + AuthorityLength(s[from..])
  {
    var rest, n := s[from..], AuthorityEnd(s, from) - from;
    assert forall i :: 0 <= i < n ==> rest[i] == s[from + i];
    AuthorityEndsAt(rest, n);
  }

  function From(s: string, at: nat): string
    requires at <= |s|
  {
    s[at..]
  }

  /** The authority that begins at `at`. */
  function AuthorityAt(s: string, at: nat): string
    requires at <= |s|
  {
    s[at..AuthorityEnd(s, at)]
  }

  lemma BeyondOfRest(s: string, from: nat, pos: nat)
    requires from <= |s| && FindSchemeFrom(s, from) == Some(pos)
    ensures FindScheme(From(s, from)) == Some(pos - from)
    ensures Beyond(From(s, from)) == From(s, pos + 3)
  {
    SchemeOfRest(s, from);
  }

  lemma CutByBeyond(rest: string, beyond: string, n: nat)
    requires FindScheme(rest).Some? && Beyond(rest) == beyond && AuthorityLength(beyond) == n
    ensures FirstAuthority(rest) == beyond[..n] && Remainder(rest) == beyond[n..]
  {
  }

  lemma SuffixCuts(s: string, at: nat, n: nat)
    requires at + n <= |s|
    ensures From(s, at)[..n] == s[at..at + n] && From(s, at)[n..] == From(s, at + n)
  {
  }

  lemma LengthOfRest(s: string, at: nat)
    requires at <= |s|
    ensures AuthorityLength(From(s, at)) == AuthorityEnd(s, at) - at
  {
    EndOfRest(s, at);
  }

  /** The first authority of a rest of the line, and what is left after it, in the line. */
  lemma RestCuts(s: string, from: nat, pos: nat)
    requires from <= |s| && FindSchemeFrom(s, from) == Some(pos)
    ensures FindScheme(From(s, from)).Some?
    ensures FirstAuthority(From(s, from)) == AuthorityAt(s, pos + 3)
    ensures Remainder(From(s, from)) == From(s, AuthorityEnd(s, pos + 3))
  {
    var at, end := pos + 3, AuthorityEnd(s, pos + 3);
    BeyondOfRest(s, from, pos);
    LengthOfRest(s, at);
    CutByBeyond(From(s, from), From(s, at), end - at);
    SuffixCuts(s, at, end - at);
  }

  lemma PassesOver(s: string, rest: string)
    requires s == "a://b:" + rest && rest != "" && rest[0] == '/' && FindScheme(rest).None?
    ensures RedactFrom(s) == s
  {
    FirstFound(s, 1);
    assert Beyond(s) == "b:" + rest;
    AuthorityEndsAt(Beyond(s), 2);
    assert FirstAuthority(s) == "b:" && Remainder(s) == rest && Lead(s) == "a://";
    assert !HasPassword("b:");
  }

  lemma NoSlashAfterColon(s: string)
    requires forall i :: 0 <= i < |s| - 1 && s[i] == ':' ==> s[i + 1] != '/'
    ensures FindScheme(s).None?
  {
  }

  /** So a password can stay: here the second `://` is run into by the first. */
  lemma RunIntoKeepsItsPassword()
    ensures var s := "a://b://u:p@h"; RedactFrom(s) == s && SchemeAt(s, 5) && s[8..] == "u:p@h"
    ensures HasPassword("u:p@h")
  {
    NoSlashAfterColon("//u:p@h");
    PassesOver("a://b://u:p@h", "//u:p@h");
    FirstAt("u:p@h", ':', 1);
    FirstAt("u:p@h", '@', 3);
  }
}
