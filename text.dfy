/** The few pieces of Go's `strings` and `strconv` packages that the client
    relies on, on strings of one-byte characters. */
module Text {
  import opened Wrappers

  /** `strings.Index(s, c)` for a one-character separator: the first position
      of `c`, or -1 when `c` does not occur. */
  function IndexOf(s: string, c: char): (i: int)
    ensures -1 <= i < |s|
    ensures i == -1 <==> c !in s
    ensures 0 <= i ==> s[i] == c && c !in s[..i]
  {
    if |s| == 0 then -1
    else if s[0] == c then 0
    else
      var j := IndexOf(s[1..], c);
      assert j >= 0 ==> s[1..][..j] == s[1..j + 1];
      if j == -1 then -1 else j + 1
  }

  lemma IndexOfAfter(a: string, b: string, c: char)
    requires c !in a
    ensures IndexOf(a + [c] + b, c) == |a|
  {
    var s := a + [c] + b;
    assert s[|a|] == c;
    assert s[..|a|] == a;
  }

  /** `strings.Split(s, c)`: the pieces between occurrences of `c`; there is
      always one more piece than there are separators. */
  function Split(s: string, c: char): (parts: seq<string>)
    ensures |parts| >= 1
    decreases |s|
  {
    var i := IndexOf(s, c);
    if i < 0 then [s] else [s[..i]] + Split(s[i + 1..], c)
  }

  /** `strings.Join(parts, c)`. */
  function Join(parts: seq<string>, c: char): string
  {
    if |parts| == 0 then ""
    else if |parts| == 1 then parts[0]
    else parts[0] + [c] + Join(parts[1..], c)
  }

  lemma {:induction false} JoinSnoc(parts: seq<string>, x: string, c: char)
    requires |parts| >= 1
    ensures Join(parts + [x], c) == Join(parts, c) + [c] + x
  {
    if |parts| == 1 {
      assert parts + [x] == [parts[0], x];
      assert [parts[0], x][1..] == [x];
    } else {
      assert (parts + [x])[1..] == parts[1..] + [x];
      JoinSnoc(parts[1..], x, c);
    }
  }

  /** Splitting undoes joining when no part contains the separator. */
  lemma {:induction false} SplitJoin(parts: seq<string>, c: char)
    requires |parts| >= 1
    requires forall k :: 0 <= k < |parts| ==> c !in parts[k]
    ensures Split(Join(parts, c), c) == parts
  {
    if |parts| == 1 {
    } else {
      var rest := Join(parts[1..], c);
      var s := parts[0] + [c] + rest;
      assert Join(parts, c) == s;
      IndexOfAfter(parts[0], rest, c);
      assert s[..|parts[0]|] == parts[0];
      assert s[|parts[0]| + 1..] == rest;
      assert Split(s, c) == [parts[0]] + Split(rest, c);
      SplitJoin(parts[1..], c);
      assert parts == [parts[0]] + parts[1..];
    }
  }

  /** `strings.TrimLeft(s, cut)`. */
  function TrimLeft(s: string, cut: set<char>): string
    decreases |s|
  {
    if |s| > 0 && s[0] in cut then TrimLeft(s[1..], cut) else s
  }

  /** `strings.TrimRight(s, cut)`. */
  function TrimRight(s: string, cut: set<char>): string
    decreases |s|
  {
    if |s| > 0 && s[|s| - 1] in cut then TrimRight(s[..|s| - 1], cut) else s
  }

  /** `strings.Trim(s, cut)` and `bytes.Trim`: every leading and trailing
      character that is in `cut` is removed, nothing else. */
  function Trim(s: string, cut: set<char>): string
  {
    TrimRight(TrimLeft(s, cut), cut)
  }

  /** `TrimLeft` keeps a suffix that does not start with a character of `cut`. */
  lemma {:induction false} TrimLeftShape(s: string, cut: set<char>)
    ensures |TrimLeft(s, cut)| <= |s| && TrimLeft(s, cut) == s[|s| - |TrimLeft(s, cut)|..]
    ensures TrimLeft(s, cut) == [] || TrimLeft(s, cut)[0] !in cut
    decreases |s|
  {
    if |s| > 0 && s[0] in cut {
      TrimLeftShape(s[1..], cut);
    }
  }

  /** `TrimRight` keeps a prefix that does not end with a character of `cut`. */
  lemma {:induction false} TrimRightShape(s: string, cut: set<char>)
    ensures |TrimRight(s, cut)| <= |s| && TrimRight(s, cut) == s[..|TrimRight(s, cut)|]
    ensures TrimRight(s, cut) == [] || TrimRight(s, cut)[|TrimRight(s, cut)| - 1] !in cut
    decreases |s|
  {
    if |s| > 0 && s[|s| - 1] in cut {
      TrimRightShape(s[..|s| - 1], cut);
    }
  }

  /** A trimmed string neither starts nor ends with a character of `cut`. */
  lemma TrimShape(s: string, cut: set<char>)
    ensures Trim(s, cut) == [] || (Trim(s, cut)[0] !in cut && Trim(s, cut)[|Trim(s, cut)| - 1] !in cut)
  {
    var l := TrimLeft(s, cut);
    TrimLeftShape(s, cut);
    TrimRightShape(l, cut);
    var r := TrimRight(l, cut);
    if r != [] {
      assert r[0] == l[0];
    }
  }

  /** A string that already starts and ends outside `cut` is left as it is. */
  lemma TrimUntouched(s: string, cut: set<char>)
    requires s == [] || (s[0] !in cut && s[|s| - 1] !in cut)
    ensures Trim(s, cut) == s
  {
  }

  /** Only characters of `cut` are removed from the front. */
  lemma {:induction false} TrimLeftKeeps(s: string, cut: set<char>, ch: char)
    requires ch in s && ch !in cut
    ensures ch in TrimLeft(s, cut)
    decreases |s|
  {
    if |s| > 0 && s[0] in cut {
      assert ch in s[1..] by { assert s == [s[0]] + s[1..]; }
      TrimLeftKeeps(s[1..], cut, ch);
    }
  }

  /** Only characters of `cut` are removed from the back. */
  lemma {:induction false} TrimRightKeeps(s: string, cut: set<char>, ch: char)
    requires ch in s && ch !in cut
    ensures ch in TrimRight(s, cut)
    decreases |s|
  {
    if |s| > 0 && s[|s| - 1] in cut {
      assert ch in s[..|s| - 1] by { assert s == s[..|s| - 1] + [s[|s| - 1]]; }
      TrimRightKeeps(s[..|s| - 1], cut, ch);
    }
  }

  /** Trimming keeps every character outside `cut` and adds none. */
  lemma TrimKeeps(s: string, cut: set<char>, ch: char)
    ensures ch in Trim(s, cut) ==> ch in s
    ensures ch in s && ch !in cut ==> ch in Trim(s, cut)
  {
    var l := TrimLeft(s, cut);
    TrimLeftShape(s, cut);
    TrimRightShape(l, cut);
    if ch in Trim(s, cut) {
      var k :| 0 <= k < |Trim(s, cut)| && Trim(s, cut)[k] == ch;
      assert l[k] == ch;
      assert s[|s| - |l| + k] == ch;
    }
    if ch in s && ch !in cut {
      TrimLeftKeeps(s, cut, ch);
      TrimRightKeeps(l, cut, ch);
    }
  }

  predicate IsDigit(ch: char) { '0' <= ch <= '9' }

  predicate AllDigits(s: string) { forall k :: 0 <= k < |s| ==> IsDigit(s[k]) }

  function DigitChar(d: nat): (ch: char)
    requires d < 10
    ensures IsDigit(ch) && ch as int - '0' as int == d
  {
    ('0' as int + d) as char
  }

  /** `strconv.Itoa` of a non-negative number: its decimal digits, no leading zero. */
  function NatToString(n: nat): (s: string)
    ensures |s| >= 1 && AllDigits(s)
    ensures n >= 10 ==> s[0] != '0'
    decreases n
  {
    if n < 10 then [DigitChar(n)] else NatToString(n / 10) + [DigitChar(n % 10)]
  }

  /** The value of a string of decimal digits (`strconv.Atoi` on such a string). */
  function ParseNat(s: string): nat
    requires AllDigits(s)
  {
    if |s| == 0 then 0
    else ParseNat(s[..|s| - 1]) * 10 + (s[|s| - 1] as int - '0' as int)
  }

  lemma {:induction false} ParseNatToString(n: nat)
    ensures ParseNat(NatToString(n)) == n
  {
    if n >= 10 {
      var s := NatToString(n);
      assert s[..|s| - 1] == NatToString(n / 10);
      ParseNatToString(n / 10);
    }
  }

  function Pow10(k: nat): (p: nat)
    ensures p >= 1
  {
    if k == 0 then 1 else 10 * Pow10(k - 1)
  }

  lemma {:induction false} NatToStringLength(n: nat, k: nat)
    requires 1 <= k && n < Pow10(k)
    ensures |NatToString(n)| <= k
  {
    if n >= 10 {
      assert k >= 2;
      NatToStringLength(n / 10, k - 1);
    }
  }

  lemma {:induction false} NatToStringLong(n: nat, k: nat)
    requires n >= Pow10(k)
    ensures |NatToString(n)| >= k + 1
  {
    if k > 0 {
      assert n >= 10 * Pow10(k - 1);
      assert n / 10 >= Pow10(k - 1);
      NatToStringLong(n / 10, k - 1);
    }
  }

  /** `strconv.Itoa` and `strconv.FormatInt(i, 10)`: an optional minus sign
      followed by the decimal digits of the magnitude. */
  function IntToString(i: int): (s: string)
    ensures |s| >= 1
    ensures forall k :: 0 <= k < |s| ==> IsDigit(s[k]) || (k == 0 && s[k] == '-')
  {
    if i < 0 then "-" + NatToString(-i) else NatToString(i)
  }

  /** Reads back what `IntToString` writes: an optional `-` then at least one digit. */
  function ParseInt(s: string): Option<int>
  {
    if |s| >= 1 && AllDigits(s) then Some(ParseNat(s))
    else if |s| >= 2 && s[0] == '-' && AllDigits(s[1..]) then Some(0 - ParseNat(s[1..]))
    else None
  }

  lemma ParseIntToString(i: int)
    ensures ParseInt(IntToString(i)) == Some(i)
  {
    if i < 0 {
      var s := IntToString(i);
      assert s[1..] == NatToString(-i);
      assert !IsDigit(s[0]);
      ParseNatToString(-i);
    } else {
      ParseNatToString(i);
    }
  }
}
