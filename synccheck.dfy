/** Reading the sync-check reply (wechat/wechat.go, lines 605-617): the
    leftmost match of `window.synccheck={retcode:"(\d+)",selector:"(\d+)"}`
    gives the return code and the selector. In the pattern the `.` after
    `window` stands for any character but a newline, and each `\d+` is
    followed by a quote, so at a given position it can only match the whole
    run of digits there. */
module SyncCheck {
  import opened Wrappers
  import opened Text
  import opened Types

  /** The literal pieces of the pattern around the wildcard and the groups. */
  const Head: string := "window"
  const Mid: string := "synccheck={retcode:\""
  const Sep: string := "\",selector:\""
  const Tail: string := "\"}"

  /** The text at `p` is `lit`, character by character. */
  predicate At(s: string, p: nat, lit: string)
  {
    p + |lit| <= |s| && forall j :: 0 <= j < |lit| ==> s[p + j] == lit[j]
  }

  /** The length of the run of digits that starts at `i`. */
  function DigitRun(s: string, i: nat): (n: nat)
    requires i <= |s|
    ensures i + n <= |s|
    ensures forall k :: i <= k < i + n ==> IsDigit(s[k])
    ensures i + n == |s| || !IsDigit(s[i + n])
    decreases |s| - i
  {
    if i < |s| && IsDigit(s[i]) then 1 + DigitRun(s, i + 1) else 0
  }

  /** `h` at `p`, then any character but a newline, then `m`. */
  predicate HeadAt(s: string, p: nat, h: string, m: string)
  {
    At(s, p, h) && p + |h| < |s| && s[p + |h|] != '\n' && At(s, p + |h| + 1, m)
  }

  /** The length of the digit group at `a` when `after` follows it, else 0. */
  function Group(s: string, a: nat, after: string): (n: nat)
    requires a <= |s|
    ensures n > 0 ==> a + n <= |s| && AllDigits(s[a..a + n]) && At(s, a + n, after)
  {
    var n := DigitRun(s, a);
    if n == 0 || !At(s, a + n, after) then 0 else n
  }

  /** The text of `h.m d1 sep d2 t` is found piece by piece at `p`, the
      wildcard being any character but a newline. */
  predicate Occurs(s: string, p: nat, h: string, m: string, sep: string, t: string, d1: string, d2: string)
  {
    HeadAt(s, p, h, m)
    && var a := p + |h| + 1 + |m|;
    At(s, a, d1) && At(s, a + |d1|, sep) && At(s, a + |d1| + |sep|, d2) && At(s, a + |d1| + |sep| + |d2|, t)
  }

  /** The two groups of a match of `h.m(\d+)sep(\d+)t` that starts at `p`,
      if one does; `.` is any character but a newline. */
  function MatchWith(s: string, p: nat, h: string, m: string, sep: string, t: string): (g: Option<(string, string)>)
    requires p <= |s|
    ensures g.Some? ==> |g.value.0| >= 1 && AllDigits(g.value.0) && |g.value.1| >= 1 && AllDigits(g.value.1)
  {
    if !HeadAt(s, p, h, m) then None
    else
      var a := p + |h| + 1 + |m|;
      var n := Group(s, a, sep);
      if n == 0 then None
      else
        var b := a + n + |sep|;
        var k := Group(s, b, t);
        if k == 0 then None
        else Some((s[a..a + n], s[b..b + k]))
  }

  /** The two groups of a match of the sync-check pattern at `p`. */
  function MatchAt(s: string, p: nat): (g: Option<(string, string)>)
    requires p <= |s|
    ensures g.Some? ==> |g.value.0| >= 1 && AllDigits(g.value.0) && |g.value.1| >= 1 && AllDigits(g.value.1)
  {
    MatchWith(s, p, Head, Mid, Sep, Tail)
  }

  /** The first position at or after `p` where a match starts. */
  function FindFrom(s: string, p: nat): (q: Option<nat>)
    requires p <= |s|
    ensures q.Some? ==> p <= q.value <= |s| && MatchAt(s, q.value).Some?
    ensures q.Some? ==> forall k :: p <= k < q.value ==> MatchAt(s, k).None?
    ensures q.None? ==> forall k :: p <= k <= |s| ==> MatchAt(s, k).None?
    decreases |s| - p
  {
    if MatchAt(s, p).Some? then Some(p)
    else if p == |s| then None
    else FindFrom(s, p + 1)
  }

  /** `FindStringSubmatch` followed by `strconv.Atoi` of both groups; no
      match is the `regex error` of the source. */
  function ParseSyncCheck(body: string): Result<SyncCheckResp, Error>
  {
    match FindFrom(body, 0)
    case None => Err(SyncShape)
    case Some(p) =>
      var g := MatchAt(body, p).value;
      Ok(SyncCheckResp(ParseNat(g.0), ParseNat(g.1)))
  }

  /** The reply parses iff the pattern occurs somewhere, and then the
      numbers are those of the leftmost occurrence. */
  lemma SyncCheckLeftmost(body: string)
    ensures ParseSyncCheck(body).Ok? <==> exists p :: 0 <= p <= |body| && MatchAt(body, p).Some?
    ensures ParseSyncCheck(body).Ok? ==>
              exists p :: 0 <= p <= |body| && MatchAt(body, p).Some?
                && (forall k :: 0 <= k < p ==> MatchAt(body, k).None?)
                && ParseSyncCheck(body).value
                   == SyncCheckResp(ParseNat(MatchAt(body, p).value.0), ParseNat(MatchAt(body, p).value.1))
  {
  }

  /** The sync-check pattern matches at `p` with groups `d1` and `d2`
      exactly when both are digit strings and `window`, one character other
      than a newline, `synccheck={retcode:"`, `d1`, `",selector:"`, `d2` and
      `"}` follow each other from `p`; each group is the whole run of digits
      at its place. */
  lemma MatchAtExact(s: string, p: nat, d1: string, d2: string)
    requires p <= |s|
    ensures MatchAt(s, p) == Some((d1, d2)) <==>
      |d1| >= 1 && AllDigits(d1) && |d2| >= 1 && AllDigits(d2)
      && p + |Head| < |s| && s[p + |Head|] != '\n' && At(s, p, Head + [s[p + |Head|]] + Mid + d1 + Sep + d2 + Tail)
    ensures MatchAt(s, p) == Some((d1, d2)) ==>
      DigitRun(s, p + |Head| + 1 + |Mid|) == |d1| && DigitRun(s, p + |Head| + 1 + |Mid| + |d1| + |Sep|) == |d2|
  {
    assert Sep[0] == '"' && Tail[0] == '"';
    MatchWithExact(s, p, Head, Mid, Sep, Tail, d1, d2);
    OccursText(s, p, Head, Mid, Sep, Tail, d1, d2);
  }

  /** A reply that holds the two digit strings in the pattern's places. */
  function Body(d1: string, d2: string): string
  {
    Head + "." + Mid + d1 + Sep + d2 + Tail
  }

  /** The canonical reply for a return code and a selector. */
  function SyncCheckBody(retCode: nat, selector: nat): string
  {
    Body(NatToString(retCode), NatToString(selector))
  }

  /** The piece found at `i` is the slice there. */
  lemma AtSlice(s: string, i: nat, d: string)
    requires At(s, i, d)
    ensures s[i..i + |d|] == d
  {
    forall j | 0 <= j < |d|
      ensures s[i..i + |d|][j] == d[j]
    {
    }
  }

  /** A digit string followed by a non-digit (or the end) is the run there. */
  lemma {:induction false} DigitRunOf(s: string, i: nat, d: string)
    requires At(s, i, d) && AllDigits(d)
    requires i + |d| == |s| || !IsDigit(s[i + |d|])
    ensures DigitRun(s, i) == |d|
    decreases |d|
  {
    if |d| > 0 {
      assert s[i] == d[0];
      forall j | 0 <= j < |d[1..]|
        ensures s[i + 1 + j] == d[1..][j]
      {
        assert s[i + (j + 1)] == d[j + 1];
      }
      DigitRunOf(s, i + 1, d[1..]);
    }
  }

  /** A digit group followed by its terminator is found as a group. */
  lemma GroupOf(s: string, a: nat, d: string, after: string)
    requires |d| >= 1 && AllDigits(d) && At(s, a, d) && |after| >= 1 && !IsDigit(after[0])
    requires At(s, a + |d|, after)
    ensures Group(s, a, after) == |d|
  {
    assert s[a + |d| + 0] == after[0];
    DigitRunOf(s, a, d);
  }

  /** A piece between two others is found where it starts. */
  lemma Framed(a: string, b: string, c: string)
    ensures At(a + b + c, |a|, b)
  {
  }

  /** A piece appended to a string is found where it starts. */
  lemma AtEnd(x: string, lit: string)
    ensures At(x + lit, |x|, lit)
  {
  }

  /** What is found in a string is still found after appending to it. */
  lemma AtExtend(x: string, y: string, i: nat, lit: string)
    requires At(x, i, lit)
    ensures At(x + y, i, lit)
  {
  }

  /** Where the head pieces of the reply `h.m d1 sep d2 t` are found. */
  lemma HeadFound(h: string, m: string, sep: string, t: string, d1: string, d2: string)
    ensures At(h + "." + m + d1 + sep + d2 + t, 0, h)
    ensures (h + "." + m + d1 + sep + d2 + t)[|h|] == '.'
    ensures At(h + "." + m + d1 + sep + d2 + t, |h| + 1, m)
  {
    var s1 := h + ".";
    var s2 := s1 + m;
    var s3 := s2 + d1;
    var s4 := s3 + sep;
    var s5 := s4 + d2;
    AtEnd(s1, m);
    AtExtend(s1, m, 0, h);
    AtExtend(s2, d1, 0, h);
    AtExtend(s3, sep, 0, h);
    AtExtend(s4, d2, 0, h);
    AtExtend(s5, t, 0, h);
    AtExtend(s2, d1, |s1|, m);
    AtExtend(s3, sep, |s1|, m);
    AtExtend(s4, d2, |s1|, m);
    AtExtend(s5, t, |s1|, m);
  }

  /** Where the first group is found. */
  lemma FirstFound(h: string, m: string, sep: string, t: string, d1: string, d2: string)
    ensures At(h + "." + m + d1 + sep + d2 + t, |h| + 1 + |m|, d1)
  {
    var s2 := h + "." + m;
    Framed(s2, d1, sep + d2 + t);
    assert s2 + d1 + (sep + d2 + t) == s2 + d1 + sep + d2 + t;
  }

  /** Where the separator is found. */
  lemma SepFound(h: string, m: string, sep: string, t: string, d1: string, d2: string)
    ensures At(h + "." + m + d1 + sep + d2 + t, |h| + 1 + |m| + |d1|, sep)
  {
    var s3 := h + "." + m + d1;
    Framed(s3, sep, d2 + t);
    assert s3 + sep + (d2 + t) == s3 + sep + d2 + t;
  }

  /** Where the second group and the closing piece are found. */
  lemma SecondFound(h: string, m: string, sep: string, t: string, d1: string, d2: string)
    ensures At(h + "." + m + d1 + sep + d2 + t, |h| + 1 + |m| + |d1| + |sep|, d2)
    ensures At(h + "." + m + d1 + sep + d2 + t, |h| + 1 + |m| + |d1| + |sep| + |d2|, t)
  {
    var s4 := h + "." + m + d1 + sep;
    Framed(s4, d2, t);
    AtEnd(s4 + d2, t);
  }

  /** The match at `p` has groups `d1` and `d2` exactly when these are digit
      strings and the pattern's text with them in place is found at `p`;
      the groups are then the whole digit runs at their places. */
  lemma MatchWithExact(s: string, p: nat, h: string, m: string, sep: string, t: string, d1: string, d2: string)
    requires p <= |s|
    requires |sep| >= 1 && !IsDigit(sep[0]) && |t| >= 1 && !IsDigit(t[0])
    ensures MatchWith(s, p, h, m, sep, t) == Some((d1, d2)) <==>
      |d1| >= 1 && AllDigits(d1) && |d2| >= 1 && AllDigits(d2) && Occurs(s, p, h, m, sep, t, d1, d2)
    ensures MatchWith(s, p, h, m, sep, t) == Some((d1, d2)) ==>
      DigitRun(s, p + |h| + 1 + |m|) == |d1| && DigitRun(s, p + |h| + 1 + |m| + |d1| + |sep|) == |d2|
  {
    if MatchWith(s, p, h, m, sep, t) == Some((d1, d2)) {
      MatchWithFound(s, p, h, m, sep, t, d1, d2);
    }
    if |d1| >= 1 && AllDigits(d1) && |d2| >= 1 && AllDigits(d2) && Occurs(s, p, h, m, sep, t, d1, d2) {
      MatchWithOccurs(s, p, h, m, sep, t, d1, d2);
    }
  }

  /** The groups of a match are found in their places, as whole digit runs. */
  lemma MatchWithFound(s: string, p: nat, h: string, m: string, sep: string, t: string, d1: string, d2: string)
    requires p <= |s| && MatchWith(s, p, h, m, sep, t) == Some((d1, d2))
    ensures Occurs(s, p, h, m, sep, t, d1, d2)
    ensures DigitRun(s, p + |h| + 1 + |m|) == |d1| && DigitRun(s, p + |h| + 1 + |m| + |d1| + |sep|) == |d2|
  {
    MatchWithSome(s, p, h, m, sep, t);
    GroupsOccur(s, p, h, m, sep, t, d1, d2);
  }

  /** Two groups read off at their places are found there. */
  lemma GroupsOccur(s: string, p: nat, h: string, m: string, sep: string, t: string, d1: string, d2: string)
    requires HeadAt(s, p, h, m)
    requires var a := p + |h| + 1 + |m|;
             a <= |s| && |d1| > 0 && Group(s, a, sep) == |d1| && s[a..a + |d1|] == d1
    requires var b := p + |h| + 1 + |m| + |d1| + |sep|;
             b <= |s| && |d2| > 0 && Group(s, b, t) == |d2| && s[b..b + |d2|] == d2
    ensures Occurs(s, p, h, m, sep, t, d1, d2)
    ensures DigitRun(s, p + |h| + 1 + |m|) == |d1| && DigitRun(s, p + |h| + 1 + |m| + |d1| + |sep|) == |d2|
  {
    GroupFound(s, p + |h| + 1 + |m|, sep, d1);
    GroupFound(s, p + |h| + 1 + |m| + |d1| + |sep|, t, d2);
  }

  /** What a match is made of: the head pieces, then two non-empty groups. */
  lemma MatchWithSome(s: string, p: nat, h: string, m: string, sep: string, t: string)
    requires p <= |s| && MatchWith(s, p, h, m, sep, t).Some?
    ensures var a := p + |h| + 1 + |m|;
            var n := Group(s, a, sep);
            var b := a + n + |sep|;
            HeadAt(s, p, h, m) && n > 0 && b <= |s| && Group(s, b, t) > 0
            && MatchWith(s, p, h, m, sep, t).value == (s[a..a + n], s[b..b + Group(s, b, t)])
  {
  }

  /** A non-empty group is the whole digit run where it starts, and is
      followed by its terminator. */
  lemma GroupFound(s: string, a: nat, after: string, d: string)
    requires a <= |s| && |d| > 0 && Group(s, a, after) == |d| && s[a..a + |d|] == d
    ensures DigitRun(s, a) == |d| && At(s, a, d) && At(s, a + |d|, after)
  {
    SliceAt(s, a, |d|);
  }

  /** A slice is found where it starts. */
  lemma SliceAt(s: string, a: nat, n: nat)
    requires a + n <= |s|
    ensures At(s, a, s[a..a + n])
  {
    forall i | a <= i < a + n
      ensures s[i] == s[a..a + n][i - a]
    {
    }
  }

  /** Digit groups found in their places make a match. */
  lemma MatchWithOccurs(s: string, p: nat, h: string, m: string, sep: string, t: string, d1: string, d2: string)
    requires |d1| >= 1 && AllDigits(d1) && |d2| >= 1 && AllDigits(d2)
    requires |sep| >= 1 && !IsDigit(sep[0]) && |t| >= 1 && !IsDigit(t[0])
    requires Occurs(s, p, h, m, sep, t, d1, d2)
    ensures MatchWith(s, p, h, m, sep, t) == Some((d1, d2))
  {
    var a := p + |h| + 1 + |m|;
    var b := a + |d1| + |sep|;
    assert HeadAt(s, p, h, m);
    GroupOf(s, a, d1, sep);
    GroupOf(s, b, d2, t);
    AtSlice(s, a, d1);
    AtSlice(s, b, d2);
  }

  /** A concatenation is found where its first part is, followed by its second. */
  lemma AtConcat(s: string, p: nat, x: string, y: string)
    ensures At(s, p, x + y) <==> At(s, p, x) && At(s, p + |x|, y)
  {
    if At(s, p, x) && At(s, p + |x|, y) {
      forall j | 0 <= j < |x + y|
        ensures s[p + j] == (x + y)[j]
      {
        if j >= |x| {
          assert s[p + |x| + (j - |x|)] == y[j - |x|];
        }
      }
    }
    if At(s, p, x + y) {
      forall j | 0 <= j < |x|
        ensures s[p + j] == x[j]
      {
        assert s[p + j] == (x + y)[j];
      }
      forall j | 0 <= j < |y|
        ensures s[p + |x| + j] == y[j]
      {
        assert s[p + (|x| + j)] == (x + y)[|x| + j];
      }
    }
  }

  /** Read piece by piece or as one text, the pattern is found alike. */
  lemma OccursText(s: string, p: nat, h: string, m: string, sep: string, t: string, d1: string, d2: string)
    ensures Occurs(s, p, h, m, sep, t, d1, d2) <==>
      p + |h| < |s| && s[p + |h|] != '\n' && At(s, p, h + [s[p + |h|]] + m + d1 + sep + d2 + t)
  {
    if p + |h| < |s| {
      var c := s[p + |h|];
      var x1 := h + [c];
      var x2 := x1 + m;
      var x3 := x2 + d1;
      var x4 := x3 + sep;
      var x5 := x4 + d2;
      AtConcat(s, p, x5, t);
      AtConcat(s, p, x4, d2);
      AtConcat(s, p, x3, sep);
      AtConcat(s, p, x2, d1);
      AtConcat(s, p, x1, m);
      AtConcat(s, p, h, [c]);
      assert At(s, p + |h|, [c]) by {
        assert s[p + |h| + 0] == [c][0];
      }
    }
  }

  /** The reply `h.m d1 sep d2 t` matches at its start, with `d1` and `d2`
      as groups. */
  lemma PiecesMatch(h: string, m: string, sep: string, t: string, d1: string, d2: string)
    requires |d1| >= 1 && AllDigits(d1) && |d2| >= 1 && AllDigits(d2)
    requires |sep| >= 1 && !IsDigit(sep[0]) && |t| >= 1 && !IsDigit(t[0])
    ensures MatchWith(h + "." + m + d1 + sep + d2 + t, 0, h, m, sep, t) == Some((d1, d2))
  {
    HeadFound(h, m, sep, t, d1, d2);
    FirstFound(h, m, sep, t, d1, d2);
    SepFound(h, m, sep, t, d1, d2);
    SecondFound(h, m, sep, t, d1, d2);
    var s := h + "." + m + d1 + sep + d2 + t;
    assert Occurs(s, 0, h, m, sep, t, d1, d2);
    MatchWithOccurs(s, 0, h, m, sep, t, d1, d2);
  }

  /** A reply matches at its start, with its digit strings as groups. */
  lemma BodyMatches(d1: string, d2: string)
    requires |d1| >= 1 && AllDigits(d1) && |d2| >= 1 && AllDigits(d2)
    ensures MatchAt(Body(d1, d2), 0) == Some((d1, d2))
  {
    assert Sep[0] == '"' && Tail[0] == '"';
    PiecesMatch(Head, Mid, Sep, Tail, d1, d2);
  }

  /** Building the reply and reading it back gives the two numbers. */
  lemma SyncCheckRoundTrip(retCode: nat, selector: nat)
    ensures ParseSyncCheck(SyncCheckBody(retCode, selector)) == Ok(SyncCheckResp(retCode, selector))
  {
    BodyMatches(NatToString(retCode), NatToString(selector));
    ParseNatToString(retCode);
    ParseNatToString(selector);
  }
}