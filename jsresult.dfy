/** The text-assignment parser of wechat/func.go: replies such as
    `window.code=200;window.redirect_uri="...";` become a string map. */
module JsResult {
  import opened Wrappers
  import opened Text

  /** `JsResult`: parsed keys to parsed values. */
  type JsMap = map<string, string>

  /** Characters stripped from both ends of a fragment (`bytes.Trim(line, "\n\t\r")`). */
  const LineCut: set<char> := {'\n', '\t', '\r'}
  /** Characters stripped from both ends of a key and of a value. */
  const Space: set<char> := {' '}
  /** Characters stripped from both ends of a value once its spaces are gone. */
  const Quote: set<char> := {'"'}

  /** A key is the text before the first `=` without surrounding spaces. */
  predicate WellFormedKey(k: string)
  {
    '=' !in k && (k == [] || (k[0] != ' ' && k[|k| - 1] != ' '))
  }

  /** A value neither begins nor ends with a double quote. */
  predicate WellFormedValue(v: string)
  {
    v == [] || (v[0] != '"' && v[|v| - 1] != '"')
  }

  /** The key and value one `;`-separated fragment contributes, if it has an `=`. */
  function Entry(fragment: string): Option<(string, string)>
  {
    var line := Trim(fragment, LineCut);
    var i := IndexOf(line, '=');
    if i == -1 then None
    else Some((Trim(line[..i], Space), Trim(Trim(line[i + 1..], Space), Quote)))
  }

  /** A fragment contributes a pair exactly when it contains `=`, and the pair
      has a well-formed key and value. */
  lemma EntryShape(fragment: string)
    ensures Entry(fragment).None? <==> '=' !in fragment
    ensures Entry(fragment).Some? ==>
              WellFormedKey(Entry(fragment).value.0) && WellFormedValue(Entry(fragment).value.1)
  {
    var line := Trim(fragment, LineCut);
    TrimKeeps(fragment, LineCut, '=');
    var i := IndexOf(line, '=');
    if i != -1 {
      TrimKeeps(line[..i], Space, '=');
      TrimShape(line[..i], Space);
      TrimShape(Trim(line[i + 1..], Space), Quote);
    }
  }

  /** Whether a fragment's entry assigns to key `k`. */
  predicate Assigns(e: Option<(string, string)>, k: string)
  {
    e.Some? && e.value.0 == k
  }

  /** The entries of the fragments, in order. */
  function Entries(fragments: seq<string>): (es: seq<Option<(string, string)>>)
    ensures |es| == |fragments|
    ensures forall i :: 0 <= i < |fragments| ==> es[i] == Entry(fragments[i])
  {
    seq(|fragments|, i requires 0 <= i < |fragments| => Entry(fragments[i]))
  }

  /** The map built by inserting the entries in order. */
  function Fold(es: seq<Option<(string, string)>>): JsMap
  {
    if es == [] then map[]
    else
      var m := Fold(es[..|es| - 1]);
      match es[|es| - 1]
      case None => m
      case Some(kv) => m[kv.0 := kv.1]
  }

  /** What `ParseJsResult(result)` returns. */
  function Parsed(result: string): JsMap
  {
    Fold(Entries(Split(result, ';')))
  }

  /** `JsResult.Get`: the stored value, or the empty string for an absent key. */
  function Get(m: JsMap, key: string): (value: string)
    ensures key in m ==> value == m[key]
    ensures key !in m ==> value == ""
  {
    if key in m then m[key] else ""
  }

  /** One more entry is one more insertion, or none. */
  lemma FoldStep(es: seq<Option<(string, string)>>, n: nat)
    requires n < |es|
    ensures es[n].None? ==> Fold(es[..n + 1]) == Fold(es[..n])
    ensures es[n].Some? ==> Fold(es[..n + 1]) == Fold(es[..n])[es[n].value.0 := es[n].value.1]
  {
    assert es[..n + 1][..n] == es[..n];
  }

  /** `ParseJsResult`: split on `;`, cut each trimmed fragment at its first
      `=`, trim key and value, and store the pair, later pairs overwriting
      earlier ones. */
  method ParseJsResult(result: string) returns (wechatResult: JsMap)
    ensures wechatResult == Parsed(result)
  {
    wechatResult := map[];
    var lines := Split(result, ';');
    ghost var es := Entries(lines);
    for n := 0 to |lines|
      invariant wechatResult == Fold(es[..n])
    {
      FoldStep(es, n);
      var lineStr := Trim(lines[n], LineCut);
      var i := IndexOf(lineStr, '=');
      if i == -1 {
        continue;
      }
      var key := Trim(lineStr[..i], Space);
      var value := Trim(Trim(lineStr[i + 1..], Space), Quote);
      wechatResult := wechatResult[key := value];
    }
    assert es[..|lines|] == es;
  }

  /** Every key has no `=` and no surrounding space; no value starts or ends with `"`. */
  lemma {:induction false} FoldShape(fragments: seq<string>)
    ensures forall k :: k in Fold(Entries(fragments)) ==>
              WellFormedKey(k) && WellFormedValue(Fold(Entries(fragments))[k])
  {
    if fragments != [] {
      var n := |fragments| - 1;
      FoldShape(fragments[..n]);
      assert Entries(fragments)[..n] == Entries(fragments[..n]);
      EntryShape(fragments[n]);
    }
  }

  /** There are at most as many keys as entries. */
  lemma {:induction false} FoldSize(es: seq<Option<(string, string)>>)
    ensures |Fold(es)| <= |es|
  {
    if es != [] {
      FoldSize(es[..|es| - 1]);
    }
  }

  /** Last write wins: a key assigned by entry `i` and by no later entry is
      mapped to the value entry `i` gives. */
  lemma {:induction false} FoldLast(es: seq<Option<(string, string)>>, k: string, i: nat)
    requires i < |es| && Assigns(es[i], k)
    requires forall j :: i < j < |es| ==> !Assigns(es[j], k)
    ensures k in Fold(es) && Fold(es)[k] == es[i].value.1
  {
    var n := |es| - 1;
    if i < n {
      var init := es[..n];
      assert init[i] == es[i];
      forall j | i < j < |init| ensures !Assigns(init[j], k) {
        assert init[j] == es[j];
      }
      FoldLast(init, k, i);
      assert !Assigns(es[n], k);
    }
  }

  /** A key is present exactly when some entry assigns it. */
  lemma {:induction false} FoldKeys(es: seq<Option<(string, string)>>, k: string)
    ensures k in Fold(es) <==> exists i :: 0 <= i < |es| && Assigns(es[i], k)
  {
    if es != [] {
      var n := |es| - 1;
      var init := es[..n];
      FoldKeys(init, k);
      if k in Fold(init) {
        var i :| 0 <= i < |init| && Assigns(init[i], k);
        assert es[i] == init[i];
      }
      if exists i :: 0 <= i < |es| && Assigns(es[i], k) {
        var i :| 0 <= i < |es| && Assigns(es[i], k);
        if i < n {
          assert init[i] == es[i];
        }
      }
    }
  }

  /** The parsed map, fragment by fragment: `k` is a key exactly when some
      fragment assigns it, and then its value is the one the last fragment
      assigning `k` gives. */
  lemma ParsedLookup(result: string, k: string, i: nat)
    requires i < |Split(result, ';')|
    requires Assigns(Entry(Split(result, ';')[i]), k)
    requires forall j :: i < j < |Split(result, ';')| ==> !Assigns(Entry(Split(result, ';')[j]), k)
    ensures Get(Parsed(result), k) == Entry(Split(result, ';')[i]).value.1
  {
    FoldLast(Entries(Split(result, ';')), k, i);
  }

  /** A key no fragment assigns is absent, and `Get` gives the empty string. */
  lemma ParsedAbsent(result: string, k: string)
    requires forall j :: 0 <= j < |Split(result, ';')| ==> !Assigns(Entry(Split(result, ';')[j]), k)
    ensures k !in Parsed(result) && Get(Parsed(result), k) == ""
  {
    FoldKeys(Entries(Split(result, ';')), k);
  }

  /** Parsing the empty reply gives the empty map. */
  lemma EmptyReply()
    ensures Parsed("") == map[]
  {
    assert Split("", ';') == [""];
    assert [""][..0] == [];
  }

  /** Keys and values of any parsed reply have the shapes stated by
      `WellFormedKey` and `WellFormedValue`, and there are at most as many
      keys as `;`-separated fragments. */
  lemma ParsedShape(result: string)
    ensures forall k :: k in Parsed(result) ==> WellFormedKey(k) && WellFormedValue(Parsed(result)[k])
    ensures |Parsed(result)| <= |Split(result, ';')|
  {
    FoldShape(Split(result, ';'));
    FoldSize(Entries(Split(result, ';')));
  }

  /** Leading and trailing newlines, tabs and carriage returns of a fragment
      do not matter: a key written on the line after a `;` is still found. */
  lemma EntryIgnoresLineBreaks(pre: string, fragment: string, post: string)
    requires forall i :: 0 <= i < |pre| ==> pre[i] in LineCut
    requires forall i :: 0 <= i < |post| ==> post[i] in LineCut
    requires fragment == [] || (fragment[0] !in LineCut && fragment[|fragment| - 1] !in LineCut)
    ensures Entry(pre + fragment + post) == Entry(fragment)
  {
    assert pre + fragment + post == pre + (fragment + post);
    TrimLeftPrefix(pre, fragment + post, LineCut);
    TrimUntouched(fragment, LineCut);
    if fragment == [] {
      assert fragment + post == post;
      TrimLeftAll(post, LineCut);
    } else {
      assert (fragment + post)[0] == fragment[0];
      assert TrimLeft(fragment + post, LineCut) == fragment + post;
      TrimRightSuffix(fragment, post, LineCut);
    }
  }

  lemma {:induction false} TrimLeftPrefix(pre: string, s: string, cut: set<char>)
    requires forall i :: 0 <= i < |pre| ==> pre[i] in cut
    ensures TrimLeft(pre + s, cut) == TrimLeft(s, cut)
  {
    if pre != [] {
      assert (pre + s)[0] == pre[0];
      assert (pre + s)[1..] == pre[1..] + s;
      TrimLeftPrefix(pre[1..], s, cut);
    } else {
      assert pre + s == s;
    }
  }

  lemma {:induction false} TrimLeftAll(s: string, cut: set<char>)
    requires forall i :: 0 <= i < |s| ==> s[i] in cut
    ensures TrimLeft(s, cut) == []
  {
    if s != [] {
      TrimLeftAll(s[1..], cut);
    }
  }

  lemma {:induction false} TrimRightSuffix(s: string, post: string, cut: set<char>)
    requires forall i :: 0 <= i < |post| ==> post[i] in cut
    requires s != [] && s[|s| - 1] !in cut
    ensures TrimRight(s + post, cut) == s
  {
    var t := s + post;
    if post != [] {
      assert t[|t| - 1] == post[|post| - 1];
      assert t[..|t| - 1] == s + post[..|post| - 1];
      TrimRightSuffix(s, post[..|post| - 1], cut);
    } else {
      assert t == s;
    }
  }

  /** Round trip: a single assignment `k="v"` of a well-formed key and value
      parses back to exactly `v` under `k`; `v` may itself contain `=`. */
  lemma AssignmentRoundTrip(k: string, v: string)
    requires WellFormedKey(k) && k != [] && ';' !in k && k[0] !in LineCut
    requires WellFormedValue(v) && ';' !in v
    ensures Get(Parsed(k + "=\"" + v + "\""), k) == v
  {
    var f := k + "=\"" + v + "\"";
    assert ';' !in f by {
      forall j | 0 <= j < |f| ensures f[j] != ';' {
        if j < |k| {
          assert f[j] == k[j];
        } else if j > |k| + 1 && j < |f| - 1 {
          assert f[j] == v[j - |k| - 2];
        }
      }
    }
    IndexOfAfter([], f, ';');
    assert Split(f, ';') == [f];
    AssignmentEntry(k, v);
    assert Entries([f]) == [Some((k, v))];
    assert [Some((k, v))][..0] == [];
  }

  lemma AssignmentEntry(k: string, v: string)
    requires WellFormedKey(k) && k != [] && k[0] !in LineCut
    requires WellFormedValue(v)
    ensures Entry(k + "=\"" + v + "\"") == Some((k, v))
  {
    var q := "\"" + v + "\"";
    var f := k + "=\"" + v + "\"";
    assert f == k + ['='] + q;
    assert f[0] == k[0] && f[|f| - 1] == '"';
    TrimUntouched(f, LineCut);
    IndexOfAfter(k, q, '=');
    assert f[..|k|] == k;
    assert f[|k| + 1..] == q;
    TrimUntouched(k, Space);
    TrimUntouched(q, Space);
    TrimQuotes(v);
  }

  lemma TrimQuotes(v: string)
    requires WellFormedValue(v)
    ensures Trim("\"" + v + "\"", Quote) == v
  {
    var q := "\"" + v + "\"";
    assert q[0] == '"';
    assert q[1..] == v + ['"'];
    assert TrimLeft(q, Quote) == TrimLeft(v + ['"'], Quote);
    if v == [] {
      assert TrimLeft(['"'], Quote) == TrimLeft([], Quote);
    } else {
      assert (v + ['"'])[0] == v[0];
      assert TrimLeft(v + ['"'], Quote) == v + ['"'];
      assert (v + ['"'])[..|v|] == v;
      TrimUntouched(v, Quote);
    }
  }

  /** An unquoted value that has no surrounding space or quote parses to itself. */
  lemma PlainAssignmentEntry(k: string, v: string)
    requires WellFormedKey(k) && k != [] && k[0] !in LineCut
    requires v != [] && v[0] !in Space && v[0] !in Quote
    requires v[|v| - 1] !in Space && v[|v| - 1] !in Quote && v[|v| - 1] !in LineCut
    ensures Entry(k + "=" + v) == Some((k, v))
  {
    var f := k + "=" + v;
    assert f == k + ['='] + v;
    assert f[0] == k[0] && f[|f| - 1] == v[|v| - 1];
    TrimUntouched(f, LineCut);
    IndexOfAfter(k, v, '=');
    assert f[..|k|] == k;
    assert f[|k| + 1..] == v;
    TrimUntouched(k, Space);
    TrimUntouched(v, Space);
    TrimUntouched(v, Quote);
  }

  /** Two `;`-free fragments, each closed by `;`, split back into
      themselves and a trailing empty fragment. */
  lemma TwoFragments(f1: string, f2: string)
    requires ';' !in f1 && ';' !in f2
    ensures Split(f1 + ";" + f2 + ";", ';') == [f1, f2, ""]
  {
    assert Join([f2, ""], ';') == f2 + [';'] + "" by {
      assert [f2, ""][1..] == [""];
    }
    assert Join([f1, f2, ""], ';') == f1 + [';'] + Join([f2, ""], ';') by {
      assert [f1, f2, ""][1..] == [f2, ""];
    }
    assert Join([f1, f2, ""], ';') == f1 + ";" + f2 + ";";
    SplitJoin([f1, f2, ""], ';');
  }

  /** Folding two assignments of distinct keys keeps both. */
  lemma FoldTwo(e1: (string, string), e2: (string, string), e3: Option<(string, string)>)
    requires e1.0 != e2.0 && !Assigns(e3, e1.0) && !Assigns(e3, e2.0)
    ensures Get(Fold([Some(e1), Some(e2), e3]), e1.0) == e1.1
    ensures Get(Fold([Some(e1), Some(e2), e3]), e2.0) == e2.1
  {
    var es := [Some(e1), Some(e2), e3];
    assert es[..2] == [Some(e1), Some(e2)];
    assert es[..2][..1] == [Some(e1)];
    assert es[..2][..1][..0] == [];
    assert Fold(es[..2][..1][..0]) == map[];
    assert Fold(es[..2][..1]) == map[e1.0 := e1.1];
    var m2 := Fold(es[..2]);
    assert m2 == map[e1.0 := e1.1][e2.0 := e2.1];
    match e3
    case None =>
      assert Fold(es) == m2;
    case Some(kv) =>
      assert Fold(es) == m2[kv.0 := kv.1];
  }

  /** The entries of three fragments. */
  lemma EntriesThree(f1: string, f2: string, f3: string)
    ensures Entries([f1, f2, f3]) == [Entry(f1), Entry(f2), Entry(f3)]
  {
  }

  /** A reply of the shape the login-status endpoint sends: a plain
      assignment, then line-break characters and a quoted assignment, each
      closed by `;`. Both keys come back with their values. */
  lemma TwoAssignmentsParse(k1: string, v1: string, pre: string, k2: string, v2: string)
    requires WellFormedKey(k1) && k1 != [] && k1[0] !in LineCut && ';' !in k1
    requires v1 != [] && v1[0] !in Space && v1[0] !in Quote && ';' !in v1
    requires v1[|v1| - 1] !in Space && v1[|v1| - 1] !in Quote && v1[|v1| - 1] !in LineCut
    requires forall i :: 0 <= i < |pre| ==> pre[i] in LineCut
    requires WellFormedKey(k2) && k2 != [] && k2[0] !in LineCut && ';' !in k2
    requires WellFormedValue(v2) && ';' !in v2
    requires k1 != k2
    ensures Get(Parsed(k1 + "=" + v1 + ";" + pre + k2 + "=\"" + v2 + "\";"), k1) == v1
    ensures Get(Parsed(k1 + "=" + v1 + ";" + pre + k2 + "=\"" + v2 + "\";"), k2) == v2
  {
    var f1 := k1 + "=" + v1;
    var g2 := k2 + "=\"" + v2 + "\"";
    var f2 := pre + g2;
    TwoAssignmentsSeparators(k1, v1, pre, k2, v2);
    TwoFragments(f1, f2);
    SameReply(k1, v1, pre, k2, v2);
    PlainAssignmentEntry(k1, v1);
    AssignmentEntry(k2, v2);
    assert f2 == pre + g2 + "";
    EntryIgnoresLineBreaks(pre, g2, "");
    EntriesThree(f1, f2, "");
    assert Entry("") == None;
    FoldTwo((k1, v1), (k2, v2), None);
  }

  /** Neither fragment of a two-assignment reply holds a separator. */
  lemma TwoAssignmentsSeparators(k1: string, v1: string, pre: string, k2: string, v2: string)
    requires ';' !in k1 && ';' !in v1 && ';' !in k2 && ';' !in v2
    requires forall i :: 0 <= i < |pre| ==> pre[i] in LineCut
    ensures ';' !in k1 + "=" + v1
    ensures ';' !in pre + (k2 + "=\"" + v2 + "\"")
  {
    var g2 := k2 + "=\"" + v2 + "\"";
    var f1 := k1 + "=" + v1;
    assert ';' !in pre;
    assert f1 == k1 + ['='] + v1;
    assert g2 == k2 + ['=', '"'] + v2 + ['"'];
  }

  /** Regrouping the two-assignment reply around its separators. */
  lemma SameReply(k1: string, v1: string, pre: string, k2: string, v2: string)
    ensures k1 + "=" + v1 + ";" + pre + k2 + "=\"" + v2 + "\";"
         == (k1 + "=" + v1) + ";" + (pre + (k2 + "=\"" + v2 + "\"")) + ";"
  {
  }

  /** `getDeviceID`, with the random draw of `Int63n(10^15)` as a parameter. */
  function DeviceId(rnd: nat): (id: string)
    requires rnd < 1000000000000000
    ensures |id| >= 2 && id[0] == 'e' && AllDigits(id[1..])
  {
    "e" + NatToString(rnd)
  }

  /** The device id is `e` followed by at most fifteen digits that read back as the draw. */
  lemma DeviceIdDecodes(rnd: nat)
    requires rnd < 1000000000000000
    ensures |DeviceId(rnd)| <= 16
    ensures ParseNat(DeviceId(rnd)[1..]) == rnd
  {
    assert DeviceId(rnd)[1..] == NatToString(rnd);
    ParseNatToString(rnd);
    assert Pow10(15) == 1000000000000000;
    NatToStringLength(rnd, 15);
  }
}

/** The login-status reply used by the repository's parser test, and what it parses to. */
module JsResultExample {
  import opened Wrappers
  import opened Text
  import opened JsResult

  /** The keys of the login-status reply. */
  const CodeKey: string := "window.code"
  const UriKey: string := "window.redirect_uri"

  /** The pieces of the redirect of the repository's parser test. */
  const R1: string := "https://wx.qq.com/cgi-bin/"
  const R2: string := "mmwebwx-bin/webwxnewloginpage"
  const R3: string := "?ticket=AZIpMcRh4hpDS7IUqoQhHhqe"
  const R4: string := "@qrticket_0&uuid=IcyiwdKOXg=="
  const R5: string := "&lang=zh-CN&scan=1574520693"

  /** The redirect of the parser test. */
  const ExampleRedirect: string := R1 + R2 + R3 + R4 + R5

  /** The test reply: `window.code=200;`, a newline and a tab, then the
      quoted redirect and `;`. */
  const ExampleReply: string := CodeKey + "=" + "200" + ";" + "\n\t" + UriKey + "=\"" + ExampleRedirect + "\";"

  /** The keys are well formed, distinct, and free of separators. */
  lemma KeysShape()
    ensures WellFormedKey(CodeKey) && CodeKey != [] && CodeKey[0] !in LineCut && ';' !in CodeKey
    ensures WellFormedKey(UriKey) && UriKey != [] && UriKey[0] !in LineCut && ';' !in UriKey
    ensures CodeKey != UriKey
  {
    assert |CodeKey| != |UriKey|;
  }

  /** No piece of the redirect holds a separator. */
  lemma Piece1Shape()
    ensures ';' !in R1
  {
  }

  lemma Piece2Shape()
    ensures ';' !in R2
  {
  }

  lemma Piece3Shape()
    ensures ';' !in R3
  {
  }

  lemma Piece4Shape()
    ensures ';' !in R4
  {
  }

  lemma Piece5Shape()
    ensures ';' !in R5
  {
  }

  /** The redirect holds no separator, and neither starts nor ends with a
      quote. */
  lemma ExampleRedirectShape()
    ensures ';' !in ExampleRedirect
    ensures WellFormedValue(ExampleRedirect) && |ExampleRedirect| > 0
  {
    Piece1Shape();
    Piece2Shape();
    Piece3Shape();
    Piece4Shape();
    Piece5Shape();
    assert ExampleRedirect[0] == R1[0];
    assert ExampleRedirect[|ExampleRedirect| - 1] == R5[|R5| - 1];
  }

  /** The parsed test reply maps `window.code` to `200` and
      `window.redirect_uri` to the full redirect, as the test expects. */
  lemma ExampleParses()
    ensures Get(Parsed(ExampleReply), "window.code") == "200"
    ensures Get(Parsed(ExampleReply), "window.redirect_uri") == ExampleRedirect
  {
    KeysShape();
    ExampleRedirectShape();
    var pre := "\n\t";
    assert forall i :: 0 <= i < |pre| ==> pre[i] in LineCut;
    TwoAssignmentsParse(CodeKey, "200", pre, UriKey, ExampleRedirect);
  }
}
