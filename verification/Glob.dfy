/** Wildcard matching (glob.rs): the iterative matcher with `*` backtracking, against the
    recursive meaning of `*` and `?`. */
module Glob {
  import opened Basics

  const STAR: char := '*'
  const ANY: char := '?'

  /** What a pattern means: `?` is any one byte, `*` any run of bytes. */
  predicate Matches(pat: string, s: string)
    decreases |pat| + |s|
  {
    if pat == [] then s == []
    else if pat[0] == STAR then Matches(pat[1..], s) || (s != [] && Matches(pat, s[1..]))
    else s != [] && OneByte(pat[0], s[0]) && Matches(pat[1..], s[1..])
  }

  predicate OneByte(p: char, c: char) {
    p == ANY || p == c
  }

  predicate AllStars(pat: string) {
    forall k :: 0 <= k < |pat| ==> pat[k] == STAR
  }

  /** The matcher's remaining run from one of its states: positions `p` and `c`, and the
      last star seen, if any, with the place up to which it has absorbed. */
  function Scan(pat: string, s: string, p: nat, c: nat, star: Option<(nat, nat)>): bool
    requires p <= |pat| && c <= |s| && (star.Some? ==> star.value.0 < |pat| && star.value.1 <= c)
    decreases if star.Some? then |s| - star.value.1 else |s| + 1, |s| - c, |pat| - p
  {
    if c == |s| then AllStars(pat[p..])
    else if p < |pat| && OneByte(pat[p], s[c]) then Scan(pat, s, p + 1, c + 1, star)
    else if p < |pat| && pat[p] == STAR then Scan(pat, s, p + 1, c, Some((p, c)))
    else if star.Some? then
      Scan(pat, s, star.value.0 + 1, star.value.1 + 1, Some((star.value.0, star.value.1 + 1)))
    else false
  }

  /** The matcher, as a run of those states. */
  predicate Accepts(pat: string, s: string) {
    Scan(pat, s, 0, 0, None)
  }

  method Wildcard(pat: string, s: string) returns (r: bool)
    ensures r == Accepts(pat, s)
    ensures r ==> Matches(pat, s)
    ensures STAR !in s || STAR !in pat ==> r == Matches(pat, s)
  {
    var p, c := 0, 0;
    var star, mark := -1, 0;
    Sound(pat, s);
    if STAR !in s || STAR !in pat { Right(pat, s); }
    while c < |s|
      invariant 0 <= p <= |pat| && 0 <= mark <= c <= |s| && -1 <= star < |pat|
      invariant Accepts(pat, s) == Scan(pat, s, p, c, if star == -1 then None else Some((star, mark)))
      decreases if star == -1 then |s| + 1 else |s| - mark, |s| - c, |pat| - p
    {
      if p < |pat| && (pat[p] == ANY || pat[p] == s[c]) {
        p, c := p + 1, c + 1;
      } else if p < |pat| && pat[p] == STAR {
        star := p;
        mark := c;
        p := p + 1;
      } else if star != -1 {
        p := star + 1;
        mark := mark + 1;
        c := mark;
      } else {
        return false;
      }
    }
    ghost var rest := p;
    while p < |pat| && pat[p] == STAR
      invariant rest <= p <= |pat| && forall k :: rest <= k < p ==> pat[k] == STAR
    {
      p := p + 1;
    }
    assert p < |pat| ==> pat[rest..][p - rest] != STAR;
    r := p == |pat|;
  }

  // ---- The meaning of patterns ----

  lemma {:induction false} EmptyName(pat: string)
    ensures Matches(pat, []) <==> AllStars(pat)
  {
    if pat != [] {
      EmptyName(pat[1..]);
      assert AllStars(pat) <==> pat[0] == STAR && AllStars(pat[1..]);
    }
  }

  function Joined(pieces: seq<string>): string {
    if pieces == [] then [] else pieces[0] + Joined(pieces[1..])
  }

  /** `s` cut into one piece for each byte of the pattern: any run for `*`, any one byte for
      `?`, and that byte itself for every other. */
  predicate Cut(pat: string, s: string, pieces: seq<string>) {
    && |pieces| == |pat| && Joined(pieces) == s
    && forall k :: 0 <= k < |pat| && pat[k] != '*' ==>
                     |pieces[k]| == 1 && (pat[k] == '?' || pieces[k][0] == pat[k])
  }

  /** The meaning without recursion: a name matches exactly if it can be so cut. */
  lemma MatchesIff(pat: string, s: string)
    ensures Matches(pat, s) <==> exists pieces :: Cut(pat, s, pieces)
  {
    if Matches(pat, s) { var pieces := Cutting(pat, s); }
    forall pieces | Cut(pat, s, pieces) ensures Matches(pat, s) { CutMatches(pat, s, pieces); }
  }

  lemma {:induction false} Cutting(pat: string, s: string) returns (pieces: seq<string>)
    requires Matches(pat, s)
    ensures Cut(pat, s, pieces)
    decreases |pat| + |s|
  {
    if pat == [] {
      pieces := [];
    } else if pat[0] == STAR && !Matches(pat[1..], s) {
      var rest := Cutting(pat, s[1..]);
      pieces := [[s[0]] + rest[0]] + rest[1..];
      assert [s[0]] + rest[0] + Joined(rest[1..]) == [s[0]] + (rest[0] + Joined(rest[1..]));
    } else {
      var n := if pat[0] == STAR then 0 else 1;
      var rest := Cutting(pat[1..], s[n..]);
      pieces := [s[..n]] + rest;
      assert s[..n] + s[n..] == s;
    }
  }

  lemma {:induction false} CutMatches(pat: string, s: string, pieces: seq<string>)
    requires Cut(pat, s, pieces)
    ensures Matches(pat, s)
  {
    if pat != [] {
      var (first, rest) := (pieces[0], pieces[1..]);
      assert forall k :: 0 <= k < |rest| ==> rest[k] == pieces[k + 1] && pat[1..][k] == pat[k + 1];
      CutMatches(pat[1..], Joined(rest), rest);
      assert s[|first|..] == Joined(rest);
      if pat[0] == STAR {
        assert s[0..] == s;
        assert Matches(pat, s[|first|..]);
        StarAbsorbs(pat, s, 0, |first|);
      }
    }
  }

  /** A star may absorb more. */
  lemma {:induction false} StarAbsorbs(pat: string, s: string, c: nat, k: nat)
    requires pat != [] && pat[0] == STAR && c <= k <= |s| && Matches(pat, s[k..])
    ensures Matches(pat, s[c..])
    decreases k - c
  {
    if c < k {
      StarAbsorbs(pat, s, c + 1, k);
      assert s[c..][1..] == s[c + 1..];
    }
  }

  /** What a leading star absorbed. */
  lemma {:induction false} StarPicks(pat: string, s: string, c: nat) returns (k: nat)
    requires pat != [] && pat[0] == STAR && c <= |s| && Matches(pat, s[c..])
    ensures c <= k <= |s| && Matches(pat[1..], s[k..])
    decreases |s| - c
  {
    if Matches(pat[1..], s[c..]) {
      k := c;
    } else {
      assert s[c..][1..] == s[c + 1..];
      k := StarPicks(pat, s, c + 1);
    }
  }

  /** Starless bytes of a pattern take one byte each. */
  lemma {:induction false} StarlessSteps(pat: string, s: string, p: nat, q: nat, k: nat)
    requires p <= q <= |pat| && k <= |s| && Matches(pat[p..], s[k..])
    requires forall j :: p <= j < q ==> pat[j] != STAR
    ensures k + (q - p) <= |s| && Matches(pat[q..], s[k + (q - p)..])
    decreases q - p
  {
    if p < q {
      assert pat[p..][1..] == pat[p + 1..] && s[k..][1..] == s[k + 1..];
      StarlessSteps(pat, s, p + 1, q, k + 1);
    }
  }

  // ---- The matcher is never wrong when it accepts ----

  lemma {:induction false} ScanSound(pat: string, s: string, p: nat, c: nat, star: Option<(nat, nat)>)
    requires p <= |pat| && c <= |s|
    requires star.Some? ==> star.value.0 < |pat| && star.value.1 <= c && pat[star.value.0] == STAR
    requires Scan(pat, s, p, c, star)
    ensures Matches(pat[p..], s[c..])
            || (star.Some? && star.value.1 < |s| && Matches(pat[star.value.0..], s[star.value.1 + 1..]))
    decreases if star.Some? then |s| - star.value.1 else |s| + 1, |s| - c, |pat| - p
  {
    if c == |s| {
      EmptyName(pat[p..]);
      assert s[c..] == [];
    } else if p < |pat| && OneByte(pat[p], s[c]) {
      ScanSound(pat, s, p + 1, c + 1, star);
      assert pat[p..][1..] == pat[p + 1..] && s[c..][1..] == s[c + 1..];
    } else if p < |pat| && pat[p] == STAR {
      ScanSound(pat, s, p + 1, c, Some((p, c)));
      assert pat[p..][1..] == pat[p + 1..] && s[c..][1..] == s[c + 1..];
    } else if star.Some? {
      var (at, mark) := star.value;
      ScanSound(pat, s, at + 1, mark + 1, Some((at, mark + 1)));
      assert pat[at..][1..] == pat[at + 1..];
      if mark + 1 < |s| { assert s[mark + 1..][1..] == s[mark + 2..]; }
    }
  }

  lemma Sound(pat: string, s: string)
    ensures Accepts(pat, s) ==> Matches(pat, s)
  {
    if Accepts(pat, s) {
      ScanSound(pat, s, 0, 0, None);
      assert pat[0..] == pat && s[0..] == s;
    }
  }

  // ---- ...and right altogether when the name, or the pattern, holds no star ----

  /** Since the last star, every byte of the pattern took one byte of the name. */
  ghost predicate InStep(pat: string, s: string, p: nat, c: nat, star: Option<(nat, nat)>) {
    star.Some? ==>
      var (at, mark) := star.value;
      at < p <= |pat| && mark <= c <= |s| && p - at - 1 == c - mark && pat[at] == STAR
      && forall j :: at < j < p ==> pat[j] != STAR
  }

  /** Meeting a new star makes the older one needless. */
  lemma NewStarSuffices(pat: string, s: string, p: nat, c: nat, at: nat, mark: nat)
    requires InStep(pat, s, p, c, Some((at, mark))) && p < |pat| && pat[p] == STAR && mark < |s|
    requires Matches(pat[at..], s[mark + 1..])
    ensures Matches(pat[p..], s[c..])
  {
    assert pat[at..][1..] == pat[at + 1..];
    var k := StarPicks(pat[at..], s, mark + 1);
    StarlessSteps(pat, s, at + 1, p, k);
    StarAbsorbs(pat[p..], s, c, k + (p - at - 1));
  }

  lemma {:induction false} ScanRight(pat: string, s: string, p: nat, c: nat, star: Option<(nat, nat)>)
    requires STAR !in s || STAR !in pat
    requires p <= |pat| && c <= |s| && InStep(pat, s, p, c, star)
    ensures Scan(pat, s, p, c, star) <==>
              (Matches(pat[p..], s[c..])
               || (star.Some? && star.value.1 < |s| && Matches(pat[star.value.0..], s[star.value.1 + 1..])))
    decreases if star.Some? then |s| - star.value.1 else |s| + 1, |s| - c, |pat| - p
  {
    if Scan(pat, s, p, c, star) {
      ScanSound(pat, s, p, c, star);
    } else if c == |s| {
      EndOfName(pat, s, p, star);
    } else if p < |pat| && OneByte(pat[p], s[c]) {
      assert pat[p] != STAR;
      assert pat[p..][1..] == pat[p + 1..] && s[c..][1..] == s[c + 1..];
      ScanRight(pat, s, p + 1, c + 1, star);
    } else if p < |pat| && pat[p] == STAR {
      assert pat[p..][1..] == pat[p + 1..] && s[c..][1..] == s[c + 1..];
      ScanRight(pat, s, p + 1, c, Some((p, c)));
      if star.Some? && star.value.1 < |s| && Matches(pat[star.value.0..], s[star.value.1 + 1..]) {
        NewStarSuffices(pat, s, p, c, star.value.0, star.value.1);
      }
    } else if star.Some? {
      var (at, mark) := star.value;
      ScanRight(pat, s, at + 1, mark + 1, Some((at, mark + 1)));
      assert pat[at..][1..] == pat[at + 1..];
      if mark + 1 < |s| { assert s[mark + 1..][1..] == s[mark + 2..]; }
    }
  }

  /** At the end of the name an older star cannot help: it would need more bytes. */
  lemma EndOfName(pat: string, s: string, p: nat, star: Option<(nat, nat)>)
    requires p <= |pat| && InStep(pat, s, p, |s|, star) && !AllStars(pat[p..])
    ensures !Matches(pat[p..], s[|s|..])
    ensures star.Some? && star.value.1 < |s| ==> !Matches(pat[star.value.0..], s[star.value.1 + 1..])
  {
    EmptyName(pat[p..]);
    assert s[|s|..] == [];
    if star.Some? && star.value.1 < |s| && Matches(pat[star.value.0..], s[star.value.1 + 1..]) {
      var (at, mark) := star.value;
      var k := StarPicks(pat[at..], s, mark + 1);
      assert pat[at..][1..] == pat[at + 1..];
      StarlessSteps(pat, s, at + 1, p, k);
    }
  }

  lemma Right(pat: string, s: string)
    requires STAR !in s || STAR !in pat
    ensures Accepts(pat, s) <==> Matches(pat, s)
  {
    ScanRight(pat, s, 0, 0, None);
    assert pat[0..] == pat && s[0..] == s;
  }

  // ---- ...and for no other name, and no other pattern ----

  /** A common beginning, whatever it is made of, matches itself. */
  lemma {:induction false} MatchesAfter(u: string, v: string, w: string)
    requires Matches(v, w)
    ensures Matches(u + v, u + w)
  {
    if u == [] {
      assert u + v == v && u + w == w;
    } else {
      MatchesAfter(u[1..], v, w);
      assert (u + v)[1..] == u[1..] + v && (u + w)[1..] == u[1..] + w;
    }
  }

  /** A pattern equal to the beginning of the name is eaten byte by byte. */
  lemma {:induction false} Literal(pat: string, s: string, i: nat)
    requires i <= |pat| && i <= |s| && pat[..i] == s[..i]
    ensures Accepts(pat, s) == Scan(pat, s, i, i, None)
  {
    if i > 0 {
      assert pat[..i - 1] == pat[..i][..i - 1] && s[..i - 1] == s[..i][..i - 1];
      Literal(pat, s, i - 1);
      assert pat[..i][i - 1] == s[..i][i - 1];
    }
  }

  /** Without stars ahead, a pattern longer than the name fails. */
  lemma {:induction false} TooLong(pat: string, s: string, p: nat, c: nat)
    requires p <= |pat| && c <= |s| && |pat| - p > |s| - c && STAR !in pat[p..]
    ensures !Scan(pat, s, p, c, None)
    decreases |s| - c
  {
    assert pat[p..][0] == pat[p];
    if c < |s| && OneByte(pat[p], s[c]) {
      assert pat[p + 1..] == pat[p..][1..];
      TooLong(pat, s, p + 1, c + 1);
    }
  }

  /** The pattern itself, a byte, and the part after its first star: the star could absorb
      the middle, but the matcher has spent it on the name's own star. */
  lemma StarredPatternFails(pat: string) returns (s: string)
    requires STAR in pat
    ensures Matches(pat, s) && !Accepts(pat, s)
  {
    var i :| 0 <= i < |pat| && pat[i] == STAR;
    var (u, rest) := (pat[..i], pat[i + 1..]);
    s := pat + "x" + rest;
    Literal(pat, s, |pat|);
    var middle := pat[i..] + "x";
    assert Matches([STAR] + rest, middle + rest) by {
      assert Matches([], []);
      MatchesAfter(rest, [], []);
      assert rest + [] == rest;
      assert ([STAR] + rest)[1..] == rest;
      assert (middle + rest)[|middle|..] == rest;
      assert Matches([STAR] + rest, (middle + rest)[|middle|..]);
      StarAbsorbs([STAR] + rest, middle + rest, 0, |middle|);
      assert (middle + rest)[0..] == middle + rest;
    }
    MatchesAfter(u, [STAR] + rest, middle + rest);
    assert u + ([STAR] + rest) == pat && u + (middle + rest) == s;
  }

  /** The name with `?` after its last star: that byte could be the star's, but the matcher
      has spent both. */
  lemma {:induction false} LastStar(s: string) returns (j: nat)
    requires STAR in s
    ensures j < |s| && s[j] == STAR && STAR !in s[j + 1..]
  {
    if s[|s| - 1] == STAR {
      j := |s| - 1;
    } else {
      assert s == s[..|s| - 1] + [s[|s| - 1]];
      j := LastStar(s[..|s| - 1]);
      assert s[j + 1..] == s[..|s| - 1][j + 1..] + [s[|s| - 1]];
    }
  }

  lemma StarredNameFails(s: string) returns (pat: string)
    requires STAR in s
    ensures Matches(pat, s) && !Accepts(pat, s)
  {
    var j := LastStar(s);
    var rest := s[j + 1..];
    pat := s[..j + 1] + [ANY] + rest;
    Literal(pat, s, j + 1);
    assert pat[j + 1..] == [ANY] + rest;
    TooLong(pat, s, j + 1, j + 1);
    assert Matches([STAR, ANY] + rest, [STAR] + rest) by {
      assert Matches([], []);
      MatchesAfter(rest, [], []);
      assert rest + [] == rest;
      assert ([STAR, ANY] + rest)[1..] == [ANY] + rest && ([ANY] + rest)[1..] == rest;
      assert ([STAR] + rest)[1..] == rest;
    }
    MatchesAfter(s[..j], [STAR, ANY] + rest, [STAR] + rest);
    assert s[..j] + ([STAR, ANY] + rest) == pat && s[..j] + ([STAR] + rest) == s;
  }

  /** The names the matcher judges rightly against every pattern are exactly those without
      a `*` byte... */
  lemma RightForNameIff(s: string)
    ensures (forall pat :: Accepts(pat, s) <==> Matches(pat, s)) <==> STAR !in s
  {
    if STAR in s {
      var pat := StarredNameFails(s);
    } else {
      forall pat ensures Accepts(pat, s) <==> Matches(pat, s) { Right(pat, s); }
    }
  }

  /** ...and the patterns it applies rightly to every name exactly those without one. */
  lemma RightForPatternIff(pat: string)
    ensures (forall s :: Accepts(pat, s) <==> Matches(pat, s)) <==> STAR !in pat
  {
    if STAR in pat {
      var s := StarredPatternFails(pat);
    } else {
      forall s ensures Accepts(pat, s) <==> Matches(pat, s) { Right(pat, s); }
    }
  }
}
