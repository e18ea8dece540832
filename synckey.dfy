/** The sync key string `webwxinit` builds from the init reply's key list:
    `key_val` segments joined by `|` (wechat/wechat.go, lines 138-147). */
module SyncKey {
  import opened Wrappers
  import opened Text
  import opened Types

  /** One `key_val` segment. */
  function Segment(kv: KeyVal): string
  {
    IntToString(kv.key) + "_" + IntToString(kv.val)
  }

  function Segments(list: seq<KeyVal>): (segs: seq<string>)
    ensures |segs| == |list|
    ensures forall i :: 0 <= i < |list| ==> segs[i] == Segment(list[i])
  {
    seq(|list|, i requires 0 <= i < |list| => Segment(list[i]))
  }

  /** The string the loop of `webwxinit` leaves in `SyncKeyStr`. */
  function SyncKeyString(list: seq<KeyVal>): string
  {
    Join(Segments(list), '|')
  }

  /** A segment holds no `|` and exactly one `_`, which follows the key's digits. */
  lemma SegmentShape(kv: KeyVal)
    ensures '|' !in Segment(kv)
    ensures IndexOf(Segment(kv), '_') == |IntToString(kv.key)|
  {
    var a := IntToString(kv.key);
    var b := IntToString(kv.val);
    assert '_' !in a && '|' !in a && '|' !in b by {
      assert forall k :: 0 <= k < |a| ==> IsDigit(a[k]) || a[k] == '-';
      assert forall k :: 0 <= k < |b| ==> IsDigit(b[k]) || b[k] == '-';
    }
    assert Segment(kv) == a + ['_'] + b;
    IndexOfAfter(a, b, '_');
  }

  /** The first pair alone gives its segment. */
  lemma SyncKeyFirst(list: seq<KeyVal>)
    requires |list| >= 1
    ensures SyncKeyString(list[..1]) == Segment(list[0])
  {
    assert Segments(list[..1]) == [Segment(list[0])];
  }

  /** Each later pair appends `|` and its `key_val` segment. */
  lemma SyncKeyStep(list: seq<KeyVal>, i: nat)
    requires 0 < i < |list|
    ensures SyncKeyString(list[..i + 1])
         == SyncKeyString(list[..i]) + ("|" + IntToString(list[i].key) + "_" + IntToString(list[i].val))
  {
    SegmentsSnoc(list, i);
    JoinSnoc(Segments(list[..i]), Segment(list[i]), '|');
    Regroup(SyncKeyString(list[..i]), IntToString(list[i].key), IntToString(list[i].val));
  }

  /** One more pair is one more segment. */
  lemma SegmentsSnoc(list: seq<KeyVal>, i: nat)
    requires i < |list|
    ensures Segments(list[..i + 1]) == Segments(list[..i]) + [Segment(list[i])]
  {
    assert list[..i + 1][..i] == list[..i];
  }

  /** Appending `|` and then a segment is appending `|key_val` at once. */
  lemma Regroup(x: string, a: string, b: string)
    ensures x + ['|'] + (a + "_" + b) == x + ("|" + a + "_" + b)
  {
  }

  /** The loop of `webwxinit`: the first pair sets the string, each later
      pair appends `|key_val`. */
  method BuildSyncKey(list: seq<KeyVal>) returns (s: string)
    ensures s == SyncKeyString(list)
  {
    s := "";
    for i := 0 to |list|
      invariant s == SyncKeyString(list[..i])
    {
      if i == 0 {
        s := IntToString(list[i].key) + "_" + IntToString(list[i].val);
        SyncKeyFirst(list);
        continue;
      }
      SyncKeyStep(list, i);
      s := s + ("|" + IntToString(list[i].key) + "_" + IntToString(list[i].val));
    }
    assert list[..|list|] == list;
  }

  /** The server reads one segment per pair: splitting the string at `|`
      gives back the segments, so their number is the number of pairs. */
  lemma SyncKeySegments(list: seq<KeyVal>)
    requires |list| >= 1
    ensures Split(SyncKeyString(list), '|') == Segments(list)
  {
    forall k | 0 <= k < |list|
      ensures '|' !in Segments(list)[k]
    {
      SegmentShape(list[k]);
    }
    SplitJoin(Segments(list), '|');
  }

  /** No pairs, no string; any pair gives a non-empty string. */
  lemma SyncKeyEmpty(list: seq<KeyVal>)
    ensures SyncKeyString(list) == "" <==> list == []
  {
    if |list| >= 1 {
      var segs := Segments(list);
      if |list| == 1 {
        assert SyncKeyString(list) == Segment(list[0]);
      } else {
        assert SyncKeyString(list) == segs[0] + ['|'] + Join(segs[1..], '|');
      }
      assert |Segment(list[0])| >= 3;
    }
  }

  /** Reads one segment back. */
  function DecodeSegment(seg: string): Option<KeyVal>
  {
    var i := IndexOf(seg, '_');
    if i < 0 then None
    else
      match (ParseInt(seg[..i]), ParseInt(seg[i + 1..]))
      case (Some(k), Some(v)) => Some(KeyVal(k, v))
      case _ => None
  }

  function DecodeAll(segs: seq<string>): Option<seq<KeyVal>>
  {
    if segs == [] then Some([])
    else
      match (DecodeSegment(segs[0]), DecodeAll(segs[1..]))
      case (Some(kv), Some(rest)) => Some([kv] + rest)
      case _ => None
  }

  /** Reads a sync key string back into its pairs. */
  function DecodeSyncKey(s: string): Option<seq<KeyVal>>
  {
    if s == "" then Some([]) else DecodeAll(Split(s, '|'))
  }

  lemma SegmentRoundTrip(kv: KeyVal)
    ensures DecodeSegment(Segment(kv)) == Some(kv)
  {
    SegmentShape(kv);
    var a := IntToString(kv.key);
    var s := Segment(kv);
    assert s == a + ['_'] + IntToString(kv.val);
    assert s[..|a|] == a;
    assert s[|a| + 1..] == IntToString(kv.val);
    ParseIntToString(kv.key);
    ParseIntToString(kv.val);
  }

  lemma {:induction false} DecodeAllSegments(list: seq<KeyVal>)
    ensures DecodeAll(Segments(list)) == Some(list)
  {
    if list != [] {
      SegmentRoundTrip(list[0]);
      assert Segments(list)[1..] == Segments(list[1..]);
      DecodeAllSegments(list[1..]);
      assert [list[0]] + list[1..] == list;
    }
  }

  /** The sync key string determines the key list. */
  lemma SyncKeyRoundTrip(list: seq<KeyVal>)
    ensures DecodeSyncKey(SyncKeyString(list)) == Some(list)
  {
    SyncKeyEmpty(list);
    if list != [] {
      SyncKeySegments(list);
      DecodeAllSegments(list);
    }
  }
}
