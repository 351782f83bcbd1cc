/** Transcript assembly in the whisper server: every segment's text is
    stripped of surrounding whitespace and the results are joined with a
    single space (`" ".join(seg.text.strip() for seg in segments)`). */
module Transcript {

  /** Python's `str.isspace` for one character: the Unicode whitespace
      that `str.strip()` removes. */
  predicate IsSpace(c: char)
  {
    || ('\U{0009}' <= c <= '\U{000D}')
    || ('\U{001C}' <= c <= '\U{0020}')
    || c == '\U{0085}' || c == '\U{00A0}' || c == '\U{1680}'
    || ('\U{2000}' <= c <= '\U{200A}')
    || c == '\U{2028}' || c == '\U{2029}' || c == '\U{202F}' || c == '\U{205F}' || c == '\U{3000}'
  }

  /** `s` with its leading whitespace removed: a suffix of `s` preceded only
      by whitespace and starting with a non-space character, if any. */
  function TrimStart(s: string): (r: string)
    ensures |r| <= |s| && r == s[|s| - |r|..]
    ensures forall k :: 0 <= k < |s| - |r| ==> IsSpace(s[k])
    ensures |r| > 0 ==> !IsSpace(r[0])
    decreases |s|
  {
    if |s| > 0 && IsSpace(s[0]) then TrimStart(s[1..]) else s
  }

  /** `s` with its trailing whitespace removed: a prefix of `s` followed only
      by whitespace and ending with a non-space character, if any. */
  function TrimEnd(s: string): (r: string)
    ensures |r| <= |s| && r == s[..|r|]
    ensures forall k :: |r| <= k < |s| ==> IsSpace(s[k])
    ensures |r| > 0 ==> !IsSpace(r[|r| - 1])
    decreases |s|
  {
    if |s| > 0 && IsSpace(s[|s| - 1]) then TrimEnd(s[..|s| - 1]) else s
  }

  /** `r` is the slice of `s` starting at `lo`, and everything of `s`
      outside that slice is whitespace. */
  predicate Surrounds(s: string, r: string, lo: int)
  {
    && 0 <= lo <= |s| - |r| && r == s[lo..lo + |r|]
    && (forall k :: 0 <= k < lo ==> IsSpace(s[k]))
    && (forall k :: lo + |r| <= k < |s| ==> IsSpace(s[k]))
  }

  /** `str.strip()`: the middle of `s` left once whitespace is removed from
      both ends; it neither starts nor ends with whitespace. */
  function Strip(s: string): (r: string)
    ensures |r| <= |s|
    ensures |r| > 0 ==> !IsSpace(r[0]) && !IsSpace(r[|r| - 1])
  {
    TrimEnd(TrimStart(s))
  }

  /** What `Strip` keeps is a contiguous slice of `s` with only whitespace
      around it, and it keeps nothing exactly when `s` is all whitespace. */
  lemma StripSurrounded(s: string)
    ensures exists lo :: Surrounds(s, Strip(s), lo)
    ensures |Strip(s)| == 0 <==> forall k :: 0 <= k < |s| ==> IsSpace(s[k])
  {
    var t := TrimStart(s);
    var r := TrimEnd(t);
    var lo := |s| - |t|;
    assert r == s[lo..lo + |r|];
    assert Strip(s) == r;
    assert Surrounds(s, r, lo);
    if |r| == 0 {
      // A non-empty `t` would start with a character `TrimEnd` keeps.
      assert |t| == 0;
    } else {
      assert r[0] == s[lo];
      assert !IsSpace(s[lo]);
      assert !(forall k :: 0 <= k < |s| ==> IsSpace(s[k]));
    }
  }

  /** A string that neither starts nor ends with whitespace is its own strip. */
  lemma StripUnchanged(s: string)
    requires |s| == 0 || (!IsSpace(s[0]) && !IsSpace(s[|s| - 1]))
    ensures Strip(s) == s
  {
    var r := Strip(s);
    StripSurrounded(s);
    var lo :| Surrounds(s, r, lo);
    if |s| > 0 {
      assert lo == 0;
      assert lo + |r| == |s|;
    }
  }

  /** Stripping twice is stripping once. */
  lemma StripIdempotent(s: string)
    ensures Strip(Strip(s)) == Strip(s)
  {
    StripUnchanged(Strip(s));
  }

  /** The total number of characters in `parts`. */
  function TotalLength(parts: seq<string>): nat
  {
    if |parts| == 0 then 0 else |parts[0]| + TotalLength(parts[1..])
  }

  /** `" ".join(parts)`: the parts in order with one space between
      neighbours; the join of no parts is the empty string. */
  function Join(parts: seq<string>): (r: string)
    ensures |parts| == 0 ==> r == ""
    ensures |parts| > 0 ==> |r| == TotalLength(parts) + |parts| - 1
  {
    if |parts| == 0 then ""
    else if |parts| == 1 then parts[0]
    else parts[0] + " " + Join(parts[1..])
  }

  /** Where part `i` starts in the join of `parts`: the lengths of the parts
      before it plus one separator after each of them. */
  function Offset(parts: seq<string>, i: nat): nat
    requires i <= |parts|
  {
    if i == 0 then 0 else |parts[0]| + 1 + Offset(parts[1..], i - 1)
  }

  /** A slice of the right operand of a concatenation, seen through it. */
  lemma SliceAfter(x: string, y: string, o: nat, m: nat)
    requires o + m <= |y|
    ensures (x + y)[|x| + o..|x| + o + m] == y[o..o + m]
  {
  }

  /** Part `i` of a join sits, unchanged, at its offset. */
  lemma {:induction false} JoinPartAt(parts: seq<string>, i: nat)
    requires i < |parts|
    ensures Offset(parts, i) + |parts[i]| <= |Join(parts)|
    ensures Join(parts)[Offset(parts, i)..Offset(parts, i) + |parts[i]|] == parts[i]
    decreases i
  {
    if i > 0 {
      var rest := Join(parts[1..]);
      var o := Offset(parts[1..], i - 1);
      JoinPartAt(parts[1..], i - 1);
      assert parts[1..][i - 1] == parts[i];
      assert Join(parts) == (parts[0] + " ") + rest;
      SliceAfter(parts[0] + " ", rest, o, |parts[i]|);
    }
  }

  /** A single space follows every part of a join but the last. */
  lemma {:induction false} JoinSeparatorAt(parts: seq<string>, i: nat)
    requires i + 1 < |parts|
    ensures Offset(parts, i) + |parts[i]| < |Join(parts)|
    ensures Join(parts)[Offset(parts, i) + |parts[i]|] == ' '
    decreases i
  {
    var rest := Join(parts[1..]);
    assert Join(parts) == (parts[0] + " ") + rest;
    if i > 0 {
      JoinSeparatorAt(parts[1..], i - 1);
      assert parts[1..][i - 1] == parts[i];
    }
  }

  /** The layout of a join: every part sits, unchanged, at its offset, and
      a single space follows every part but the last. With the length in
      `Join`'s contract this determines the joined string completely. */
  lemma JoinLayout(parts: seq<string>)
    ensures forall i :: 0 <= i < |parts| ==>
              && Offset(parts, i) + |parts[i]| <= |Join(parts)|
              && Join(parts)[Offset(parts, i)..Offset(parts, i) + |parts[i]|] == parts[i]
    ensures forall i :: 0 <= i < |parts| - 1 ==>
              Offset(parts, i) + |parts[i]| < |Join(parts)| && Join(parts)[Offset(parts, i) + |parts[i]|] == ' '
  {
    forall i | 0 <= i < |parts|
      ensures Offset(parts, i) + |parts[i]| <= |Join(parts)|
      ensures Join(parts)[Offset(parts, i)..Offset(parts, i) + |parts[i]|] == parts[i]
    {
      JoinPartAt(parts, i);
    }
    forall i | 0 <= i < |parts| - 1
      ensures Offset(parts, i) + |parts[i]| < |Join(parts)| && Join(parts)[Offset(parts, i) + |parts[i]|] == ' '
    {
      JoinSeparatorAt(parts, i);
    }
  }

  /** A join starts with its first part and ends with its last. */
  lemma {:induction false} JoinEnds(parts: seq<string>)
    requires |parts| > 0
    ensures |parts[0]| <= |Join(parts)| && Join(parts)[..|parts[0]|] == parts[0]
    ensures |parts[|parts| - 1]| <= |Join(parts)|
    ensures Join(parts)[|Join(parts)| - |parts[|parts| - 1]|..] == parts[|parts| - 1]
    decreases |parts|
  {
    if |parts| > 1 {
      var rest := Join(parts[1..]);
      var r := parts[0] + " " + rest;
      var last := parts[|parts| - 1];
      JoinEnds(parts[1..]);
      assert last == parts[1..][|parts[1..]| - 1];
      assert r[..|parts[0]|] == parts[0];
      assert r[|r| - |rest|..] == rest;
      assert r[|r| - |last|..] == rest[|rest| - |last|..];
    }
  }

  /** Joining two non-empty lists is joining each and putting one space
      between the results. */
  lemma {:induction false} JoinAppend(a: seq<string>, b: seq<string>)
    requires |a| > 0 && |b| > 0
    ensures Join(a + b) == Join(a) + " " + Join(b)
    decreases |a|
  {
    var ab := a + b;
    assert ab[0] == a[0];
    assert ab[1..] == a[1..] + b;
    assert Join(ab) == a[0] + " " + Join(a[1..] + b);
    if |a| == 1 {
      assert a[1..] + b == b;
    } else {
      JoinAppend(a[1..], b);
      assert Join(a) == a[0] + " " + Join(a[1..]);
    }
  }

  /** `s.split(" ")`: the maximal space-free runs of `s`, in order, including
      the empty runs between adjacent spaces and at either end. */
  function Split(s: string): (parts: seq<string>)
    ensures |parts| >= 1
    decreases |s|
  {
    if |s| == 0 then [""]
    else if s[0] == ' ' then [""] + Split(s[1..])
    else
      var rest := Split(s[1..]);
      [[s[0]] + rest[0]] + rest[1..]
  }

  /** A space-free string splits into itself. */
  lemma {:induction false} SplitWord(a: string)
    requires ' ' !in a
    ensures Split(a) == [a]
    decreases |a|
  {
    if |a| > 0 {
      SplitWord(a[1..]);
      assert [a[0]] + a[1..] == a;
    }
  }

  /** A space-free word followed by a space splits off as the first part. */
  lemma {:induction false} SplitAfterWord(a: string, t: string)
    requires ' ' !in a
    ensures Split(a + " " + t) == [a] + Split(t)
    decreases |a|
  {
    var s := a + " " + t;
    if |a| == 0 {
      assert s == " " + t;
      assert s[1..] == t;
    } else {
      assert s[1..] == a[1..] + " " + t;
      SplitAfterWord(a[1..], t);
      assert [a[0]] + a[1..] == a;
    }
  }

  /** Split inverts Join on space-free parts: the transcript can be taken
      apart into exactly the segment texts it was built from. */
  lemma {:induction false} SplitJoin(parts: seq<string>)
    requires |parts| > 0
    requires forall i :: 0 <= i < |parts| ==> ' ' !in parts[i]
    ensures Split(Join(parts)) == parts
    decreases |parts|
  {
    if |parts| == 1 {
      SplitWord(parts[0]);
    } else {
      SplitAfterWord(parts[0], Join(parts[1..]));
      assert Join(parts) == parts[0] + " " + Join(parts[1..]);
      assert forall i :: 0 <= i < |parts[1..]| ==> ' ' !in parts[1..][i] by {
        forall i | 0 <= i < |parts[1..]|
          ensures ' ' !in parts[1..][i]
        {
          assert parts[1..][i] == parts[i + 1];
        }
      }
      SplitJoin(parts[1..]);
      assert [parts[0]] + parts[1..] == parts;
    }
  }

  /** Every segment text, stripped. */
  function StrippedTexts(texts: seq<string>): (r: seq<string>)
    ensures |r| == |texts|
    ensures forall i :: 0 <= i < |r| ==> r[i] == Strip(texts[i])
  {
    seq(|texts|, i requires 0 <= i < |texts| => Strip(texts[i]))
  }

  /** Every text in `StrippedTexts` is already stripped. */
  lemma StrippedTextsStripped(texts: seq<string>)
    ensures forall i :: 0 <= i < |texts| ==> Strip(StrippedTexts(texts)[i]) == StrippedTexts(texts)[i]
  {
    forall i | 0 <= i < |texts|
      ensures Strip(StrippedTexts(texts)[i]) == StrippedTexts(texts)[i]
    {
      StripIdempotent(texts[i]);
    }
  }

  /** The transcript of a list of segment texts. No segments give the empty
      transcript, and its length is the stripped lengths plus one separator
      between each pair of neighbours. */
  function Transcript(texts: seq<string>): (r: string)
    ensures |texts| == 0 ==> r == ""
    ensures |texts| > 0 ==> |r| == TotalLength(StrippedTexts(texts)) + |texts| - 1
  {
    Join(StrippedTexts(texts))
  }

  /** A single segment's transcript is its stripped text. */
  lemma TranscriptSingle(t: string)
    ensures Transcript([t]) == Strip(t)
  {
    assert StrippedTexts([t])[0] == Strip(t);
  }

  /** One more segment adds a single space and its stripped text to a
      non-empty transcript. */
  lemma TranscriptAppend(texts: seq<string>, t: string)
    requires |texts| > 0
    ensures Transcript(texts + [t]) == Transcript(texts) + " " + Strip(t)
  {
    var all := StrippedTexts(texts + [t]);
    var front := StrippedTexts(texts);
    assert |all| == |front| + 1;
    forall i | 0 <= i < |all|
      ensures all[i] == (front + [Strip(t)])[i]
    {
      assert (texts + [t])[i] == if i < |texts| then texts[i] else t;
    }
    assert all == front + [Strip(t)];
    JoinAppend(front, [Strip(t)]);
  }

  /** A join whose last part is non-empty ends with that part's last
      character. */
  lemma {:induction false} JoinLastChar(parts: seq<string>)
    requires |parts| > 0 && |parts[|parts| - 1]| > 0
    ensures |Join(parts)| > 0
    ensures Join(parts)[|Join(parts)| - 1] == parts[|parts| - 1][|parts[|parts| - 1]| - 1]
    decreases |parts|
  {
    if |parts| > 1 {
      assert parts[1..][|parts[1..]| - 1] == parts[|parts| - 1];
      JoinLastChar(parts[1..]);
    }
  }

  /** The first and last characters of a join of non-empty parts are the
      first character of the first part and the last of the last. */
  lemma JoinEdges(parts: seq<string>)
    requires |parts| > 0 && |parts[0]| > 0 && |parts[|parts| - 1]| > 0
    ensures |Join(parts)| > 0
    ensures Join(parts)[0] == parts[0][0]
    ensures Join(parts)[|Join(parts)| - 1] == parts[|parts| - 1][|parts[|parts| - 1]| - 1]
  {
    JoinLastChar(parts);
  }

  /** When every segment has some non-space content, the transcript itself
      has no surrounding whitespace. */
  lemma {:induction false} TranscriptStripped(texts: seq<string>)
    requires forall i :: 0 <= i < |texts| ==> Strip(texts[i]) != ""
    ensures Strip(Transcript(texts)) == Transcript(texts)
  {
    if |texts| > 0 {
      StrippedAt(texts, 0);
      StrippedAt(texts, |texts| - 1);
      JoinUnstripped(StrippedTexts(texts));
    }
  }

  /** A stripped segment that is not empty starts and ends with a
      non-space character. */
  lemma StrippedAt(texts: seq<string>, i: nat)
    requires i < |texts| && Strip(texts[i]) != ""
    ensures var p := StrippedTexts(texts)[i];
      |p| > 0 && !IsSpace(p[0]) && !IsSpace(p[|p| - 1])
  {
    assert StrippedTexts(texts)[i] == Strip(texts[i]);
  }

  /** A join whose first part starts and whose last part ends with a
      non-space character is its own strip. */
  lemma JoinUnstripped(ps: seq<string>)
    requires |ps| > 0 && |ps[0]| > 0 && |ps[|ps| - 1]| > 0
    requires !IsSpace(ps[0][0]) && !IsSpace(ps[|ps| - 1][|ps[|ps| - 1]| - 1])
    ensures Strip(Join(ps)) == Join(ps)
  {
    JoinEdges(ps);
    StripUnchanged(Join(ps));
  }

  /** When no stripped segment contains an inner space, splitting the
      transcript on single spaces gives back the stripped segments. */
  lemma TranscriptSplits(texts: seq<string>)
    requires |texts| > 0
    requires forall i :: 0 <= i < |texts| ==> ' ' !in Strip(texts[i])
    ensures Split(Transcript(texts)) == StrippedTexts(texts)
  {
    SplitJoin(StrippedTexts(texts));
  }
}
