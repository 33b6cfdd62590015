/**
  The boot-time patch of the services table: an auto-generated block is cut out and a new one
  put in before the closing brace.  Text to text, as the patcher does it.
 */
module ServicesPatch {
  import opened Text

  const HEADER := "\n  # plugin services (auto-generated)\n"
  const CLOSE := "\n}"
  const ANCHOR := "\n}\nSERVICE_LIST"

  /** The marks the patcher looks for: the line before the block, and the text behind it. */
  datatype Marks = Marks(header: string, anchor: string)
  {
    /** The header is one whole line; the anchor is a closing line and one more, different, line start. */
    ghost predicate Good() {
      var h := |header| - 1;
      && h >= 2 && header[0] == '\n' && header[1] == ' ' && header[h] == '\n'
      && (forall i :: 0 < i < h ==> header[i] != '\n')
      && |anchor| >= 4 && anchor[..2] == CLOSE && anchor[2] == '\n' && anchor[3] != ' '
      && (forall i :: 2 < i < |anchor| ==> anchor[i] != '\n')
    }
  }

  const SERVICES := Marks(HEADER, ANCHOR)

  lemma HeaderIsOneLine()
    ensures |HEADER| == 38 && HEADER[0] == '\n' && HEADER[1] == ' ' && HEADER[37] == '\n'
    ensures forall i :: 0 < i < 37 ==> HEADER[i] != '\n'
  {
  }

  lemma AnchorIsClosingLine()
    ensures |ANCHOR| == 15 && ANCHOR[..2] == CLOSE && ANCHOR[2] == '\n' && ANCHOR[3] != ' '
    ensures forall i :: 2 < i < 15 ==> ANCHOR[i] != '\n'
  {
  }

  lemma ServicesMarksGood()
    ensures SERVICES.Good()
  {
    HeaderIsOneLine();
    AnchorIsClosingLine();
  }

  /** Position of the first closing line, if any. */
  function FindClose(s: string): (r: int)
    ensures r < 0 || (r + 2 <= |s| && s[r..r + 2] == CLOSE)
    decreases |s|
  {
    if |s| < 2 then -1
    else if s[..2] == CLOSE then 0
    else
      var r := FindClose(s[1..]);
      if r < 0 then -1 else r + 1
  }

  /** Replace every shortest stretch from the header to a closing line by that closing line. */
  function Strip(m: Marks, s: string): string
    decreases |s|
  {
    if s == "" then ""
    else if m.header <= s && FindClose(s[|m.header|..]) >= 0 then
      CLOSE + Strip(m, s[|m.header| + FindClose(s[|m.header|..]) + 2..])
    else [s[0]] + Strip(m, s[1..])
  }

  /** Replace every anchor by the block with this body, followed by the anchor. */
  function Insert(m: Marks, s: string, body: string): string
    requires m.anchor != ""
    decreases |s|
  {
    if s == "" then ""
    else if m.anchor <= s then m.header + (body + (m.anchor + Insert(m, s[|m.anchor|..], body)))
    else [s[0]] + Insert(m, s[1..], body)
  }

  ghost predicate Lacks(s: string, sub: string) {
    forall i :: 0 <= i <= |s| ==> !Occurs(s, i, sub)
  }

  lemma Assoc(a: string, b: string, c: string)
    ensures (a + b) + c == a + (b + c)
    ensures "" + a == a == a + ""
  {
  }

  lemma DropPrefix(a: string, b: string, k: nat)
    requires k <= |b|
    ensures a <= a + b && (a + b)[|a|..] == b && (a + b)[|a| + k..] == b[k..]
  {
  }

  lemma DropWithin(a: string, b: string, k: nat)
    requires k <= |a|
    ensures (a + b)[k..] == a[k..] + b
  {
  }

  lemma DropTwice(s: string, j: nat, k: nat)
    requires j + k <= |s|
    ensures s[j..][k..] == s[j + k..] && s[0..] == s
  {
  }

  lemma LacksSuffix(s: string, sub: string, k: nat)
    requires k <= |s| && Lacks(s, sub)
    ensures Lacks(s[k..], sub)
  {
    forall i | 0 <= i <= |s[k..]|
      ensures !Occurs(s[k..], i, sub)
    {
      if Occurs(s[k..], i, sub) {
        assert s[k..][i..i + |sub|] == s[k + i..k + i + |sub|];
        assert Occurs(s, k + i, sub);
      }
    }
  }

  lemma PrefixOccurs(s: string, sub: string)
    requires sub <= s
    ensures Occurs(s, 0, sub)
  {
  }

  /** Text up to a line end survives insertion unchanged, so insertion cannot complete a header. */
  lemma {:induction false} LineSurvives(m: Marks, line: string, s: string, body: string)
    requires m.Good() && line != "" && line[|line| - 1] == '\n' && forall i :: 0 <= i < |line| - 1 ==> line[i] != '\n'
    requires line <= Insert(m, s, body)
    ensures line <= s
    decreases |line|
  {
    assert s != "";
    if m.anchor <= s {
      assert Insert(m, s, body)[0] == m.header[0] == '\n' && s[0] == '\n';
      assert line[0] == '\n';
      assert |line| == 1;
    } else {
      assert Insert(m, s, body) == [s[0]] + Insert(m, s[1..], body);
      assert line[0] == s[0];
      if |line| > 1 {
        assert line[1..] <= Insert(m, s[1..], body);
        LineSurvives(m, line[1..], s[1..], body);
        assert s == [s[0]] + s[1..] && line == [line[0]] + line[1..];
      }
    }
  }

  lemma NoHeaderAppears(m: Marks, c: char, s: string, body: string)
    requires m.Good() && Lacks([c] + s, m.header)
    ensures !(m.header <= [c] + Insert(m, s, body))
  {
    hide Insert;
    var t := [c] + Insert(m, s, body);
    if m.header <= t {
      assert m.header[1..] <= t[1..];
      assert t[1..] == Insert(m, s, body);
      LineSurvives(m, m.header[1..], s, body);
      assert c == m.header[0];
      assert m.header == [m.header[0]] + m.header[1..];
      assert m.header <= [c] + s;
      PrefixOccurs([c] + s, m.header);
    }
  }

  lemma StripKeeps(m: Marks, c: char, t: string)
    requires !(m.header <= [c] + t)
    ensures Strip(m, [c] + t) == [c] + Strip(m, t)
  {
    assert ([c] + t)[1..] == t;
  }

  /** Text in which no header starts is copied. */
  lemma {:induction false} StripCopies(m: Marks, t: string, rest: string)
    requires m.Good() && forall i :: 0 <= i < |t| ==> !(m.header <= (t + rest)[i..])
    ensures Strip(m, t + rest) == t + Strip(m, rest)
    decreases |t|
  {
    if t == "" {
      assert t + rest == rest;
    } else {
      var s := t + rest;
      assert s[0..] == s;
      assert s[1..] == t[1..] + rest;
      forall i | 0 <= i < |t[1..]|
        ensures !(m.header <= (t[1..] + rest)[i..])
      {
        assert (t[1..] + rest)[i..] == s[i + 1..];
      }
      StripCopies(m, t[1..], rest);
      assert s == [t[0]] + (t[1..] + rest) && t == [t[0]] + t[1..];
      StripKeeps(m, t[0], t[1..] + rest);
      Assoc([t[0]], t[1..], Strip(m, rest));
    }
  }

  lemma StripClean(m: Marks, s: string)
    requires m.Good() && Lacks(s, m.header)
    ensures Strip(m, s) == s
  {
    forall i | 0 <= i < |s|
      ensures !(m.header <= (s + "")[i..])
    {
      Assoc(s, "", "");
      assert !Occurs(s, i, m.header);
      if i + |m.header| <= |s| {
        assert s[i..][..|m.header|] == s[i..i + |m.header|];
      }
    }
    StripCopies(m, s, "");
    assert s + "" == s;
  }

  /** The rest of the anchor is copied whatever follows it. */
  lemma AnchorTailCopies(m: Marks, rest: string)
    requires m.Good()
    ensures Strip(m, m.anchor[2..] + rest) == m.anchor[2..] + Strip(m, rest)
  {
    var t := m.anchor[2..];
    forall i | 0 <= i < |t|
      ensures !(m.header <= (t + rest)[i..])
    {
      var u := (t + rest)[i..];
      assert u[0] == t[i] == m.anchor[i + 2];
      if i == 0 {
        assert u[1] == t[1] == m.anchor[3];
      }
    }
    StripCopies(m, t, rest);
  }

  lemma {:induction false} FirstClose(m: Marks, body: string, rest: string)
    requires m.Good() && Lacks(body, CLOSE)
    ensures FindClose(body + (m.anchor + rest)) == |body|
    decreases |body|
  {
    var s := body + (m.anchor + rest);
    if body == "" {
      assert s == m.anchor + rest;
      assert s[..2] == m.anchor[..2] == CLOSE;
    } else {
      assert s[..2] != CLOSE by {
        if |body| == 1 {
          assert s[1] == m.anchor[0];
        } else {
          assert !Occurs(body, 0, CLOSE);
          assert body[0..2] == s[..2];
        }
      }
      DropWithin(body, m.anchor + rest, 1);
      LacksSuffix(body, CLOSE, 1);
      FirstClose(m, body[1..], rest);
    }
  }

  lemma BlockStrips(m: Marks, body: string, rest: string)
    requires m.Good() && Lacks(body, CLOSE)
    ensures Strip(m, m.header + (body + (m.anchor + rest))) == m.anchor + Strip(m, rest)
  {
    FirstClose(m, body, rest);
    BlockCut(m, body + (m.anchor + rest));
    DropPrefix(body, m.anchor + rest, 2);
    DropWithin(m.anchor, rest, 2);
    AnchorTailCopies(m, rest);
    Assoc(CLOSE, m.anchor[2..], Strip(m, rest));
    assert CLOSE + m.anchor[2..] == m.anchor;
  }

  lemma StripAtHeader(m: Marks, s: string)
    requires s != "" && m.header <= s && FindClose(s[|m.header|..]) >= 0
    ensures Strip(m, s) == CLOSE + Strip(m, s[|m.header| + FindClose(s[|m.header|..]) + 2..])
  {
  }

  lemma HeaderNonEmpty(m: Marks)
    requires m.Good()
    ensures m.header != ""
  {
  }

  /** One step of the cutting: from the header to the first closing line. */
  lemma BlockCut(m: Marks, t: string)
    requires m.Good() && FindClose(t) >= 0
    ensures Strip(m, m.header + t) == CLOSE + Strip(m, t[FindClose(t) + 2..])
  {
    hide FindClose, Marks.Good, Strip;
    var s, k := m.header + t, FindClose(t) + 2;
    HeaderNonEmpty(m);
    DropPrefix(m.header, t, 0);
    DropPrefix(m.header, t, k);
    StripAtHeader(m, s);
  }

  lemma InsertStep(m: Marks, s: string, body: string)
    requires m.anchor != ""
    ensures s == "" ==> Insert(m, s, body) == "" && Strip(m, "") == ""
    ensures m.anchor <= s ==> Insert(m, s, body) == m.header + (body + (m.anchor + Insert(m, s[|m.anchor|..], body)))
    ensures s != "" && !(m.anchor <= s) ==> Insert(m, s, body) == [s[0]] + Insert(m, s[1..], body)
  {
  }

  /** Cutting the block out again undoes inserting it, wherever and however often the anchor occurs. */
  lemma {:induction false} StripUndoesInsert(m: Marks, s: string, body: string)
    requires m.Good() && Lacks(s, m.header) && Lacks(body, CLOSE)
    ensures Strip(m, Insert(m, s, body)) == s
    decreases |s|
  {
    hide Insert, Strip, Lacks;
    InsertStep(m, s, body);
    if s == "" {
    } else if m.anchor <= s {
      var after := s[|m.anchor|..];
      LacksSuffix(s, m.header, |m.anchor|);
      StripUndoesInsert(m, after, body);
      BlockStrips(m, body, Insert(m, after, body));
      assert s == m.anchor + after;
    } else {
      var c, after := s[0], s[1..];
      assert s == [c] + after;
      NoHeaderAppears(m, c, after, body);
      LacksSuffix(s, m.header, 1);
      StripUndoesInsert(m, after, body);
      StripKeeps(m, c, Insert(m, after, body));
    }
  }

  // ---------- exactly when ----------

  lemma {:induction false} EarlyClose(m: Marks, body: string, rest: string)
    requires m.Good() && !Lacks(body, CLOSE)
    ensures 0 <= FindClose(body + rest) <= |body| - 2
    decreases |body|
  {
    var i :| 0 <= i <= |body| && Occurs(body, i, CLOSE);
    var s := body + rest;
    assert s[..2] == body[..2];
    if s[..2] != CLOSE {
      assert body[1..][i - 1..i + 1] == body[i..i + 2];
      assert Occurs(body[1..], i - 1, CLOSE);
      assert s[1..] == body[1..] + rest;
      EarlyClose(m, body[1..], rest);
    }
  }

  lemma HeaderShape(m: Marks, u: string)
    requires m.Good() && m.header <= u
    ensures u[0] == '\n' && u[1] == ' ' && u[..|m.header|] == m.header
    ensures forall k :: 0 < k < |m.header| - 1 ==> u[k] != '\n'
  {
  }

  lemma NoHeaderInTail(m: Marks, tail: string, more: string, i: nat)
    requires m.Good() && Lacks(tail + "\n", m.header) && i < |tail| + 2
    ensures !(m.header <= (tail + CLOSE + more)[i..])
  {
    var s := tail + CLOSE + more;
    var u := s[i..];
    var n := |m.header|;
    assert s[|tail|] == '\n' && s[|tail| + 1] == '}';
    if i + n <= |tail| + 1 {
      assert !Occurs(tail + "\n", i, m.header);
      assert (tail + "\n")[i..i + n] == u[..n];
    } else if i < |tail| {
      assert u[|tail| - i] == s[|tail|];
    } else if i == |tail| {
      assert u[1] == s[|tail| + 1];
    } else {
      assert u[0] == s[|tail| + 1];
    }
    if m.header <= u {
      HeaderShape(m, u);
    }
  }

  /** The rest of a bad body and the anchor behind it are copied as they stand. */
  lemma TailCopies(m: Marks, tail: string, rest: string)
    requires m.Good() && Lacks(tail + "\n", m.header)
    ensures Strip(m, tail + (m.anchor + rest)) == tail + (m.anchor + Strip(m, rest))
  {
    var t, more := tail + CLOSE, m.anchor[2..] + rest;
    forall i | 0 <= i < |t|
      ensures !(m.header <= (t + more)[i..])
    {
      NoHeaderInTail(m, tail, more, i);
    }
    StripCopies(m, t, more);
    AnchorTailCopies(m, rest);
    assert m.anchor == CLOSE + m.anchor[2..];
    AnchorSplits(tail, m.anchor, rest);
    AnchorSplits(tail, m.anchor, Strip(m, rest));
  }

  lemma AnchorSplits(tail: string, anchor: string, rest: string)
    requires |anchor| >= 2 && anchor == CLOSE + anchor[2..]
    ensures tail + (anchor + rest) == (tail + CLOSE) + (anchor[2..] + rest)
  {
    Assoc(tail, CLOSE, anchor[2..] + rest);
    Assoc(CLOSE, anchor[2..], rest);
  }

  predicate EndsIn(t: string, end: string) {
    |end| <= |t| && t[|t| - |end|..] == end
  }

  lemma EndsInSuffix(t: string, end: string, k: nat)
    requires k <= |t| && !EndsIn(t, end)
    ensures !EndsIn(t[k..], end)
  {
    if |end| <= |t| - k {
      assert t[k..][|t[k..]| - |end|..] == t[|t| - |end|..];
    }
  }

  /** A header cannot run from a text into the anchor, unless the anchor's line end completes it. */
  lemma HeaderWithin(m: Marks, tail: string, rest: string)
    requires m.Good() && tail != "" && !EndsIn(tail + "\n", m.header) && m.header <= tail + (m.anchor + rest)
    ensures m.header <= tail
  {
    var s, n := tail + (m.anchor + rest), |m.header|;
    assert s[|tail|] == m.anchor[..2][0] == '\n';
    HeaderShape(m, s);
    assert s[..|tail| + 1] == tail + "\n";
    assert (tail + "\n")[0..] == tail + "\n";
    assert n <= |tail|;
    assert s[..n] == tail[..n];
  }

  /** Whatever a block leaves behind its early end, the anchor survives. */
  lemma {:induction false} TailGrows(m: Marks, tail: string, rest: string) returns (u: string)
    requires m.Good() && !EndsIn(tail + "\n", m.header)
    ensures Strip(m, tail + (m.anchor + rest)) == u + (m.anchor + Strip(m, rest))
    decreases |tail|
  {
    hide Strip, Marks.Good, EndsIn, FindClose, Lacks;
    var behind := m.anchor + rest;
    var s, end := tail + behind, m.anchor + Strip(m, rest);
    if tail == "" {
      LineEndLacks(m);
      TailCopies(m, tail, rest);
      u := tail;
    } else if m.header <= s {
      HeaderWithin(m, tail, rest);
      var n := |m.header|;
      var t := tail[n..];
      assert tail == m.header + t;
      Assoc(m.header, t, behind);
      if Lacks(t, CLOSE) {
        BlockStrips(m, t, rest);
        u := "";
        Assoc(end, "", "");
      } else {
        EarlyClose(m, t, behind);
        BlockCut(m, t + behind);
        var k := FindClose(t + behind) + 2;
        DropWithin(t, behind, k);
        SuffixKeeps(m, tail, n + k);
        assert tail[n + k..] == t[k..];
        var v := TailGrows(m, t[k..], rest);
        u := CLOSE + v;
        Assoc(CLOSE, v, end);
      }
    } else {
      assert s == [tail[0]] + (tail[1..] + behind);
      StripKeeps(m, tail[0], tail[1..] + behind);
      SuffixKeeps(m, tail, 1);
      var v := TailGrows(m, tail[1..], rest);
      u := [tail[0]] + v;
      Assoc([tail[0]], v, end);
    }
  }

  lemma LineEndLacks(m: Marks)
    requires m.Good()
    ensures Lacks("" + "\n", m.header)
  {
  }

  lemma SuffixKeeps(m: Marks, tail: string, k: nat)
    requires k <= |tail| && !EndsIn(tail + "\n", m.header)
    ensures !EndsIn(tail[k..] + "\n", m.header)
  {
    EndsInSuffix(tail + "\n", m.header, k);
    DropWithin(tail, "\n", k);
  }

  lemma BadBlockGrows(m: Marks, body: string, rest: string) returns (u: string)
    requires m.Good() && !Lacks(body, CLOSE) && !EndsIn(body + "\n", m.header)
    ensures Strip(m, m.header + (body + (m.anchor + rest))) == u + (m.anchor + Strip(m, rest)) && u != ""
  {
    hide Strip, Marks.Good, EndsIn;
    var t := body + (m.anchor + rest);
    EarlyClose(m, body, m.anchor + rest);
    var k := FindClose(t) + 2;
    BlockCut(m, t);
    SuffixKeeps(m, body, k);
    DropWithin(body, m.anchor + rest, k);
    var v := TailGrows(m, body[k..], rest);
    u := CLOSE + v;
    Assoc(CLOSE, v, m.anchor + Strip(m, rest));
  }

  /** How many anchors the insertion replaces. */
  function Anchors(m: Marks, s: string): nat
    requires m.anchor != ""
    decreases |s|
  {
    if s == "" then 0
    else if m.anchor <= s then 1 + Anchors(m, s[|m.anchor|..])
    else Anchors(m, s[1..])
  }

  lemma AnchorsStep(m: Marks, s: string)
    requires m.anchor != "" && s != ""
    ensures Anchors(m, s) == if m.anchor <= s then 1 + Anchors(m, s[|m.anchor|..]) else Anchors(m, s[1..])
  {
  }

  /** A text has at least the anchors of its end, and at most one more that begins in a stretch of an anchor's length. */
  lemma {:induction false} AnchorsBehind(m: Marks, s: string, k: nat)
    requires m.anchor != "" && k <= |s|
    ensures Anchors(m, s[k..]) <= Anchors(m, s)
    ensures k <= |m.anchor| ==> Anchors(m, s) <= 1 + Anchors(m, s[k..])
    decreases |s|
  {
    hide Anchors;
    var n := |m.anchor|;
    if k > 0 {
      AnchorsStep(m, s);
      if !(m.anchor <= s) {
        AnchorsBehind(m, s[1..], k - 1);
        DropTwice(s, 1, k - 1);
      } else if k >= n {
        AnchorsBehind(m, s[n..], k - n);
        DropTwice(s, n, k - n);
      } else {
        AnchorsBehind(m, s[k..], n - k);
        DropTwice(s, k, n - k);
      }
    } else {
      DropTwice(s, 0, 0);
    }
  }

  lemma AnchorsKept(m: Marks, u: string, rest: string)
    requires m.anchor != ""
    ensures Anchors(m, u + (m.anchor + rest)) >= 1 + Anchors(m, rest)
  {
    var s := m.anchor + rest;
    DropPrefix(u, s, 0);
    AnchorsBehind(m, u + s, |u|);
    DropPrefix(m.anchor, rest, 0);
  }

  lemma OneMore(n: nat, k: nat)
    ensures (1 + n) * k == k + n * k
  {
  }

  lemma {:induction false} InsertLength(m: Marks, s: string, body: string)
    requires m.anchor != ""
    ensures |Insert(m, s, body)| == |s| + Anchors(m, s) * (|m.header| + |body|)
    decreases |s|
  {
    if s != "" {
      if m.anchor <= s {
        InsertLength(m, s[|m.anchor|..], body);
        OneMore(Anchors(m, s[|m.anchor|..]), |m.header| + |body|);
      } else {
        InsertLength(m, s[1..], body);
      }
    }
  }

  lemma AnchorFurtherOn(m: Marks, s: string)
    requires m.Good() && s != "" && !Lacks(s, m.anchor) && !(m.anchor <= s)
    ensures !Lacks(s[1..], m.anchor)
  {
    var i :| 0 <= i <= |s| && Occurs(s, i, m.anchor);
    assert i > 0;
    assert s[1..][i - 1..i - 1 + |m.anchor|] == s[i..i + |m.anchor|];
    assert Occurs(s[1..], i - 1, m.anchor);
  }

  /** A body with a closing line leaves more text behind, and no fewer anchors. */
  lemma {:induction false} BadBodyGrows(m: Marks, s: string, body: string)
    requires m.Good() && Lacks(s, m.header) && !Lacks(body, CLOSE) && !EndsIn(body + "\n", m.header)
    ensures |Strip(m, Insert(m, s, body))| >= |s|
    ensures !Lacks(s, m.anchor) ==> |Strip(m, Insert(m, s, body))| > |s|
    ensures Anchors(m, Strip(m, Insert(m, s, body))) >= Anchors(m, s)
    decreases |s|
  {
    hide Strip, EndsIn;
    if s == "" {
    } else if m.anchor <= s {
      var after := s[|m.anchor|..];
      LacksSuffix(s, m.header, |m.anchor|);
      BadBodyGrows(m, after, body);
      var u := BadBlockGrows(m, body, Insert(m, after, body));
      AnchorsKept(m, u, Strip(m, Insert(m, after, body)));
    } else {
      var c, after := s[0], s[1..];
      assert s == [c] + after;
      NoHeaderAppears(m, c, after, body);
      LacksSuffix(s, m.header, 1);
      BadBodyGrows(m, after, body);
      var t := Strip(m, Insert(m, after, body));
      StripKeeps(m, c, Insert(m, after, body));
      assert Insert(m, s, body) == [c] + Insert(m, after, body);
      assert ([c] + t)[1..] == t;
      AnchorsBehind(m, [c] + t, 1);
      if !Lacks(s, m.anchor) {
        AnchorFurtherOn(m, s);
      }
    }
  }

  lemma {:induction false} InsertNowhere(m: Marks, s: string, body: string)
    requires m.anchor != "" && Lacks(s, m.anchor)
    ensures Insert(m, s, body) == s
    decreases |s|
  {
    if s != "" {
      if m.anchor <= s {
        PrefixOccurs(s, m.anchor);
      } else {
        LacksSuffix(s, m.anchor, 1);
        InsertNowhere(m, s[1..], body);
        assert s == [s[0]] + s[1..];
      }
    }
  }

  /**
    Cutting undoes inserting exactly when there was nowhere to insert or no closing line hides in
    the inserted body, for every body that does not end with an unfinished header line.
   */
  lemma StripUndoesInsertIff(m: Marks, s: string, body: string)
    requires m.Good() && Lacks(s, m.header) && !EndsIn(body + "\n", m.header)
    ensures Strip(m, Insert(m, s, body)) == s <==> Lacks(s, m.anchor) || Lacks(body, CLOSE)
  {
    if Lacks(s, m.anchor) {
      InsertNowhere(m, s, body);
      StripClean(m, s);
    } else if Lacks(body, CLOSE) {
      StripUndoesInsert(m, s, body);
    } else {
      BadBodyGrows(m, s, body);
    }
  }

  lemma MoreText(s: string, t: string, p: nat, q: nat, k: nat)
    requires |t| > |s| && q >= p
    ensures |t| + q * k > |s| + p * k
  {
  }

  /** The next insertion gives what it gives on the untouched text under the same condition. */
  lemma InsertForgetsIff(m: Marks, s: string, body: string, next: string)
    requires m.Good() && Lacks(s, m.header) && !EndsIn(body + "\n", m.header)
    ensures Insert(m, Strip(m, Insert(m, s, body)), next) == Insert(m, s, next) <==>
              Lacks(s, m.anchor) || Lacks(body, CLOSE)
  {
    hide Strip, Insert, Lacks, EndsIn, Anchors;
    StripUndoesInsertIff(m, s, body);
    if !Lacks(s, m.anchor) && !Lacks(body, CLOSE) {
      var t := Strip(m, Insert(m, s, body));
      BadBodyGrows(m, s, body);
      InsertLength(m, t, next);
      InsertLength(m, s, next);
      MoreText(s, t, Anchors(m, s), Anchors(m, t), |m.header| + |next|);
    }
  }

  // ---------- the patch ----------

  /** One plugin's services: name and the printed tuple of its settings. */
  datatype Service = Service(name: string, vals: string)

  function Entry(s: Service): string {
    "  \"" + s.name + "\": " + s.vals + ","
  }

  /** "\n".join(entries) */
  function Join(entries: seq<string>): string {
    if |entries| == 0 then ""
    else if |entries| == 1 then entries[0]
    else Join(entries[..|entries| - 1]) + "\n" + entries[|entries| - 1]
  }

  function Patch(content: string, entries: seq<string>): string {
    if entries == [] then Strip(SERVICES, content) else Insert(SERVICES, Strip(SERVICES, content), Join(entries))
  }

  /** A closing line cannot straddle a seam unless one side ends and the other starts with its parts. */
  lemma SeamLacksClose(a: string, b: string)
    requires Lacks(a, CLOSE) && Lacks(b, CLOSE)
    requires a == "" || a[|a| - 1] != '\n' || b == "" || b[0] != '}'
    ensures Lacks(a + b, CLOSE)
  {
    var s := a + b;
    forall i | 0 <= i <= |s|
      ensures !Occurs(s, i, CLOSE)
    {
      if i + 2 <= |a| {
        assert !Occurs(a, i, CLOSE);
        assert a[i..i + 2] == s[i..i + 2];
      } else if i >= |a| && i + 2 <= |s| {
        var j := i - |a|;
        assert !Occurs(b, j, CLOSE);
        assert b[j..j + 2] == s[i..i + 2];
      } else if i + 2 <= |s| {
        assert a != "" && b != "" && s[i] == a[|a| - 1] && s[i + 1] == b[0];
        assert s[i..i + 2] == [s[i], s[i + 1]];
      }
    }
  }

  lemma ShortLacksClose(s: string)
    requires forall i :: 0 <= i < |s| ==> s[i] != '}'
    ensures Lacks(s, CLOSE)
  {
    forall i | 0 <= i <= |s|
      ensures !Occurs(s, i, CLOSE)
    {
      if i + 2 <= |s| {
        assert s[i..i + 2][1] == s[i + 1];
      }
    }
  }

  lemma LineBreakLacksClose(a: string, b: string)
    requires Lacks(a, CLOSE) && Lacks(b, CLOSE) && b != "" && b[0] != '}'
    ensures Lacks(a + "\n" + b, CLOSE)
  {
    ShortLacksClose("\n");
    SeamLacksClose(a, "\n");
    SeamLacksClose(a + "\n", b);
  }

  lemma {:induction false} JoinLacksClose(entries: seq<string>)
    requires Tidy(entries)
    ensures Lacks(Join(entries), CLOSE)
  {
    if |entries| > 1 {
      var n := |entries| - 1;
      assert Tidy(entries[..n]) by {
        forall e <- entries[..n] ensures e in entries {}
      }
      JoinLacksClose(entries[..n]);
      assert entries[n] in entries;
      LineBreakLacksClose(Join(entries[..n]), entries[n]);
    } else if |entries| == 1 {
      assert entries[0] in entries;
    }
  }

  /** No entry starts with or contains a closing line. */
  ghost predicate Tidy(entries: seq<string>) {
    forall e <- entries :: e != "" && e[0] != '}' && Lacks(e, CLOSE)
  }

  /** A service whose name and settings hold no closing line gives an entry without one. */
  lemma EntryTidy(s: Service)
    requires Lacks(s.name, CLOSE) && Lacks(s.vals, CLOSE)
    ensures var e := Entry(s);
            e != "" && e[0] != '}' && Lacks(e, CLOSE)
  {
    var a, b := "  \"", "\": ";
    ShortLacksClose(a);
    ShortLacksClose(b);
    ShortLacksClose(",");
    SeamLacksClose(a, s.name);
    SeamLacksClose(a + s.name, b);
    SeamLacksClose(a + s.name + b, s.vals);
    SeamLacksClose(a + s.name + b + s.vals, ",");
    assert Entry(s) == a + s.name + b + s.vals + ",";
  }

  /** The entries of all enabled plugins, in order. */
  function EntriesOf(plugins: seq<seq<Service>>): seq<string> {
    if plugins == [] then []
    else EntriesOf(plugins[..|plugins| - 1]) + EntriesIn(plugins[|plugins| - 1])
  }

  function EntriesIn(services: seq<Service>): seq<string> {
    seq(|services|, i requires 0 <= i < |services| => Entry(services[i]))
  }

  ghost predicate TidyServices(plugins: seq<seq<Service>>) {
    forall i, j :: 0 <= i < |plugins| && 0 <= j < |plugins[i]| ==>
      Lacks(plugins[i][j].name, CLOSE) && Lacks(plugins[i][j].vals, CLOSE)
  }

  lemma {:induction false} EntriesTidy(plugins: seq<seq<Service>>)
    requires TidyServices(plugins)
    ensures Tidy(EntriesOf(plugins))
  {
    if plugins != [] {
      var n := |plugins| - 1;
      EntriesTidy(plugins[..n]);
      forall e <- EntriesIn(plugins[n])
        ensures e != "" && e[0] != '}' && Lacks(e, CLOSE)
      {
        var j :| 0 <= j < |plugins[n]| && e == Entry(plugins[n][j]);
        EntryTidy(plugins[n][j]);
      }
    }
  }

  lemma LacksWithin(a: string, b: string, c: string, sub: string)
    requires Lacks(a + b + c, sub)
    ensures Lacks(b, sub)
  {
    var s := a + b + c;
    forall i | 0 <= i <= |b|
      ensures !Occurs(b, i, sub)
    {
      if Occurs(b, i, sub) {
        assert s[|a| + i..|a| + i + |sub|] == b[i..i + |sub|];
        assert Occurs(s, |a| + i, sub);
      }
    }
  }

  lemma EntryLacks(s: Service)
    requires Lacks(Entry(s), CLOSE)
    ensures Lacks(s.name, CLOSE) && Lacks(s.vals, CLOSE)
  {
    hide Lacks;
    var a, b := "  \"", "\": ";
    assert Entry(s) == a + s.name + (b + s.vals + ",") == (a + s.name + b) + s.vals + ",";
    LacksWithin(a, s.name, b + s.vals + ",", CLOSE);
    LacksWithin(a + s.name + b, s.vals, ",", CLOSE);
  }

  lemma {:induction false} JoinHolds(entries: seq<string>, i: nat) returns (a: string, c: string)
    requires i < |entries|
    ensures Join(entries) == a + entries[i] + c
  {
    var n := |entries| - 1;
    if n == 0 {
      return "", "";
    } else if i == n {
      return Join(entries[..n]) + "\n", "";
    } else {
      a, c := JoinHolds(entries[..n], i);
      c := c + "\n" + entries[n];
    }
  }

  lemma {:induction false} EntryListed(plugins: seq<seq<Service>>, i: nat, j: nat) returns (k: nat)
    requires i < |plugins| && j < |plugins[i]|
    ensures k < |EntriesOf(plugins)| && EntriesOf(plugins)[k] == Entry(plugins[i][j])
  {
    var n := |plugins| - 1;
    if i == n {
      k := |EntriesOf(plugins[..n])| + j;
    } else {
      k := EntryListed(plugins[..n], i, j);
    }
  }

  /** The inserted body has no closing line exactly if no service's name or settings hold one. */
  lemma TidyIff(plugins: seq<seq<Service>>)
    ensures Lacks(Join(EntriesOf(plugins)), CLOSE) <==> TidyServices(plugins)
  {
    hide Lacks, Join, EntriesOf, Entry, Tidy;
    if TidyServices(plugins) {
      EntriesTidy(plugins);
      JoinLacksClose(EntriesOf(plugins));
    }
    if Lacks(Join(EntriesOf(plugins)), CLOSE) {
      forall i, j | 0 <= i < |plugins| && 0 <= j < |plugins[i]|
        ensures Lacks(plugins[i][j].name, CLOSE) && Lacks(plugins[i][j].vals, CLOSE)
      {
        var k := EntryListed(plugins, i, j);
        var a, c := JoinHolds(EntriesOf(plugins), k);
        LacksWithin(a, Entry(plugins[i][j]), c, CLOSE);
        EntryLacks(plugins[i][j]);
      }
    }
  }

  /** Without services there is nothing to insert, and nothing to be untidy. */
  lemma {:induction false} NoEntriesIsTidy(plugins: seq<seq<Service>>)
    requires EntriesOf(plugins) == []
    ensures TidyServices(plugins)
  {
    if !TidyServices(plugins) {
      var i, j :| 0 <= i < |plugins| && 0 <= j < |plugins[i]|
                  && !(Lacks(plugins[i][j].name, CLOSE) && Lacks(plugins[i][j].vals, CLOSE));
      var k := EntryListed(plugins, i, j);
    }
  }

  lemma {:induction false} EntriesEndInComma(plugins: seq<seq<Service>>)
    ensures forall e <- EntriesOf(plugins) :: e != "" && e[|e| - 1] == ','
  {
    if plugins != [] {
      EntriesEndInComma(plugins[..|plugins| - 1]);
    }
  }

  /** The inserted body ends with an entry's comma, so it never ends with a header line. */
  lemma BodyIsNoHeader(plugins: seq<seq<Service>>)
    requires EntriesOf(plugins) != []
    ensures !EndsIn(Join(EntriesOf(plugins)) + "\n", HEADER)
  {
    var entries := EntriesOf(plugins);
    var e, body := entries[|entries| - 1], Join(entries);
    EntriesEndInComma(plugins);
    assert e in entries;
    assert body[|body| - 1] == e[|e| - 1] == ',';
    HeaderEnds();
    CommaIsNoHeader(body);
  }

  lemma HeaderEnds()
    ensures |HEADER| >= 2 && HEADER[|HEADER| - 2] == ')'
  {
  }

  lemma CommaIsNoHeader(body: string)
    requires body != "" && body[|body| - 1] == ',' && |HEADER| >= 2 && HEADER[|HEADER| - 2] == ')'
    ensures !EndsIn(body + "\n", HEADER)
  {
    var t, n := body + "\n", |HEADER|;
    if n <= |t| {
      assert t[|t| - n..][n - 2] == t[|t| - 2] == ',';
    }
  }

  /**
    For all plugins: cutting the generated block out of the patched stock file gives the stock file
    back exactly if it had no anchor or no service's name or settings hold a closing line.
   */
  lemma PatchUndoneIff(stock: string, plugins: seq<seq<Service>>)
    requires Lacks(stock, HEADER)
    ensures Strip(SERVICES, Patch(stock, EntriesOf(plugins))) == stock <==>
              Lacks(stock, ANCHOR) || TidyServices(plugins)
  {
    hide Strip, Insert, Join, Lacks, Marks.Good, EndsIn, TidyServices;
    ServicesMarksGood();
    StripClean(SERVICES, stock);
    if EntriesOf(plugins) == [] {
      NoEntriesIsTidy(plugins);
    } else {
      BodyIsNoHeader(plugins);
      TidyIff(plugins);
      StripUndoesInsertIff(SERVICES, stock, Join(EntriesOf(plugins)));
    }
  }

  /** With a closing line in its name a service's text stays behind, and the patch is not idempotent. */
  lemma ClosingLineStays()
    ensures var plugins := [[Service("a\n}b", "v")]];
            && Lacks(ANCHOR, HEADER)
            && Strip(SERVICES, Patch(ANCHOR, EntriesOf(plugins))) != ANCHOR
            && Patch(Patch(ANCHOR, EntriesOf(plugins)), EntriesOf(plugins)) != Patch(ANCHOR, EntriesOf(plugins))
  {
    hide Strip, Insert, Patch, EntriesOf, Lacks;
    var plugins: seq<seq<Service>> := [[Service("a\n}b", "v")]];
    var name := "a\n}b";
    assert !Lacks(name, CLOSE) by {
      ClosingLineInName(name);
    }
    assert plugins[0][0].name == name && !TidyServices(plugins);
    AnchorIsShort();
    AnchorIsAnchor();
    PatchUndoneIff(ANCHOR, plugins);
    PatchIdempotentIff(ANCHOR, plugins);
  }

  lemma ClosingLineInName(name: string)
    requires name == "a\n}b"
    ensures !Lacks(name, CLOSE)
  {
    assert name[1..3] == CLOSE && Occurs(name, 1, CLOSE);
  }

  lemma AnchorIsAnchor()
    ensures !Lacks(ANCHOR, ANCHOR)
  {
    assert ANCHOR[0..|ANCHOR|] == ANCHOR && Occurs(ANCHOR, 0, ANCHOR);
  }

  lemma AnchorIsShort()
    ensures Lacks(ANCHOR, HEADER)
  {
    assert |ANCHOR| < |HEADER|;
  }

  // ---------- what the block says ----------

  /** Reading an entry back: the name between the first quotes, and the settings behind the colon. */
  function NameOf(entry: string): string {
    if |entry| < 3 then "" else UpToQuote(entry[3..])
  }

  function UpToQuote(s: string): string {
    if s == "" || s[0] == '"' then "" else [s[0]] + UpToQuote(s[1..])
  }

  function ValsOf(entry: string): string {
    var n := 3 + |NameOf(entry)| + 3;
    if n + 1 <= |entry| then entry[n..|entry| - 1] else ""
  }

  lemma {:induction false} UpToQuoteIs(name: string, rest: string)
    requires '"' !in name
    ensures UpToQuote(name + ("\"" + rest)) == name
  {
    var s := name + ("\"" + rest);
    if name != "" {
      UpToQuoteIs(name[1..], rest);
      assert s[1..] == name[1..] + ("\"" + rest);
    }
  }

  /** An entry is one line that names the service and gives its settings. */
  lemma EntryReadsBack(s: Service)
    requires '"' !in s.name
    ensures NameOf(Entry(s)) == s.name && ValsOf(Entry(s)) == s.vals && Entry(s)[..3] == "  \""
    ensures Entry(s)[|Entry(s)| - 1] == ','
  {
    var e, rest := Entry(s), ": " + s.vals + ",";
    assert e == "  \"" + (s.name + ("\"" + rest));
    assert e[3..] == s.name + ("\"" + rest);
    UpToQuoteIs(s.name, rest);
    var n := 3 + |s.name| + 3;
    assert e == ("  \"" + s.name + "\": ") + (s.vals + ",");
    assert e[n..] == s.vals + ",";
    assert e[n..|e| - 1] == s.vals;
  }

  function LinesOf(text: string): seq<string> {
    if text == "" then [""]
    else
      var ls := LinesOf(text[..|text| - 1]);
      if text[|text| - 1] == '\n' then ls + [""] else ls[..|ls| - 1] + [ls[|ls| - 1] + [text[|text| - 1]]]
  }

  lemma {:induction false} LinesNonEmpty(text: string)
    ensures LinesOf(text) != []
  {
    if text != "" {
      LinesNonEmpty(text[..|text| - 1]);
    }
  }

  lemma LinesByLast(text: string)
    requires text != "" && text[|text| - 1] != '\n'
    ensures LinesOf(text[..|text| - 1]) != []
    ensures var ls := LinesOf(text[..|text| - 1]);
            LinesOf(text) == ls[..|ls| - 1] + [ls[|ls| - 1] + [text[|text| - 1]]]
  {
    LinesNonEmpty(text[..|text| - 1]);
  }

  lemma {:induction false} LinesOfLine(text: string, line: string)
    requires '\n' !in line
    ensures LinesOf(text) != []
    ensures var ls := LinesOf(text);
            LinesOf(text + line) == ls[..|ls| - 1] + [ls[|ls| - 1] + line]
  {
    LinesNonEmpty(text);
    hide LinesOf;
    var ls := LinesOf(text);
    if line == "" {
      assert text + line == text && ls[|ls| - 1] + line == ls[|ls| - 1];
      assert ls == ls[..|ls| - 1] + [ls[|ls| - 1]];
    } else {
      var n := |line| - 1;
      LinesOfLine(text, line[..n]);
      assert (text + line)[..|text| + n] == text + line[..n];
      assert line == line[..n] + [line[n]];
      LinesByLast(text + line);
      var us, last := LinesOf(text + line[..n]), ls[|ls| - 1];
      assert us[..|us| - 1] == ls[..|ls| - 1] && us[|us| - 1] == last + line[..n];
      assert last + line == last + line[..n] + [line[n]];
    }
  }

  /** The block's lines are the entries, in order. */
  lemma {:induction false} JoinReadsBack(entries: seq<string>)
    requires entries != [] && forall e <- entries :: '\n' !in e
    ensures LinesOf(Join(entries)) == entries
  {
    var n := |entries| - 1;
    if n == 0 {
      assert LinesOf("") == [""] && "" + entries[0] == entries[0];
      LinesOfLine("", entries[0]);
      assert entries == [entries[0]];
    } else {
      var front := Join(entries[..n]);
      JoinReadsBack(entries[..n]);
      var t := front + "\n";
      NextLine(front);
      hide LinesOf;
      assert LinesOf(t) == entries[..n] + [""];
      LinesOfLine(t, entries[n]);
      assert "" + entries[n] == entries[n];
      assert entries == entries[..n] + [entries[n]];
      assert Join(entries) == t + entries[n];
    }
  }

  lemma NextLine(text: string)
    ensures LinesOf(text + "\n") == LinesOf(text) + [""]
  {
    assert (text + "\n")[..|text|] == text;
  }

  /** The entries are those of the first plugins, then those of the others; one plugin's are its services' in order. */
  lemma {:induction false} EntriesInOrder(a: seq<seq<Service>>, b: seq<seq<Service>>)
    ensures EntriesOf(a + b) == EntriesOf(a) + EntriesOf(b)
  {
    hide EntriesOf, EntriesIn;
    EntriesOfLast(b);
    EntriesOfLast(a + b);
    if b == [] {
      assert a + b == a;
    } else {
      EntriesInOrder(a, b[..|b| - 1]);
      assert (a + b)[..|a + b| - 1] == a + b[..|b| - 1] && (a + b)[|a + b| - 1] == b[|b| - 1];
    }
  }

  lemma EntriesOfLast(plugins: seq<seq<Service>>)
    ensures EntriesOf(plugins)
            == if plugins == [] then [] else EntriesOf(plugins[..|plugins| - 1]) + EntriesIn(plugins[|plugins| - 1])
  {
  }

  lemma EntriesOfOne(services: seq<Service>)
    ensures EntriesOf([services]) == seq(|services|, i requires 0 <= i < |services| => Entry(services[i]))
  {
    assert [services][..0] == [];
  }

  /** In a stock file with one anchor the block goes right before it, header first, and nothing else changes. */
  lemma {:induction false} PatchPlaces(a: string, b: string, plugins: seq<seq<Service>>)
    requires var stock := a + (ANCHOR + b);
             Lacks(stock, HEADER) && EntriesOf(plugins) != [] && forall i :: Occurs(stock, i, ANCHOR) ==> i == |a|
    ensures Patch(a + (ANCHOR + b), EntriesOf(plugins))
            == a + ("\n  # plugin services (auto-generated)\n" + (Join(EntriesOf(plugins)) + (ANCHOR + b)))
  {
    hide Strip, Insert, Join, Lacks, EntriesOf, Marks.Good;
    ServicesMarksGood();
    StripClean(SERVICES, a + (ANCHOR + b));
    AnchorIsClosingLine();
    InsertAtOnly(SERVICES, a, b, Join(EntriesOf(plugins)));
  }

  lemma ShiftedOccurs(a: string, b: string, i: int, k: string)
    requires i >= 0
    ensures Occurs(b, i, k) <==> Occurs(a + b, |a| + i, k)
  {
    if i + |k| <= |b| {
      assert (a + b)[|a| + i..|a| + i + |k|] == b[i..i + |k|];
    }
  }

  lemma {:induction false} InsertAtOnly(m: Marks, a: string, b: string, body: string)
    requires m.anchor != "" && forall i :: Occurs(a + (m.anchor + b), i, m.anchor) ==> i == |a|
    ensures Insert(m, a + (m.anchor + b), body) == a + (m.header + (body + (m.anchor + b)))
    decreases |a|
  {
    var s := a + (m.anchor + b);
    hide Insert;
    InsertStep(m, s, body);
    if a == "" {
      DropPrefix(m.anchor, b, 0);
      assert s == m.anchor + b && m.anchor <= s;
      forall i | 0 <= i <= |b|
        ensures !Occurs(b, i, m.anchor)
      {
        ShiftedOccurs(m.anchor, b, i, m.anchor);
      }
      InsertNowhere(m, b, body);
      assert s[|m.anchor|..] == b;
    } else {
      var t := a[1..] + (m.anchor + b);
      assert s[1..] == t && s == [a[0]] + t;
      assert Occurs(s, 0, m.anchor) <==> m.anchor <= s;
      forall i | Occurs(t, i, m.anchor)
        ensures i == |a| - 1
      {
        ShiftedOccurs([a[0]], t, i, m.anchor);
      }
      InsertAtOnly(m, a[1..], b, body);
      assert [a[0]] + (a[1..] + (m.header + (body + (m.anchor + b)))) == a + (m.header + (body + (m.anchor + b)));
    }
  }

  /** The patch as the builder runs it: cut, collect the entries, put the new block in. */
  method PatchServices(content: string, plugins: seq<seq<Service>>) returns (patched: string)
    ensures patched == Patch(content, EntriesOf(plugins))
  {
    patched := Strip(SERVICES, content);
    var entries: seq<string> := [];
    for i := 0 to |plugins|
      invariant entries == EntriesOf(plugins[..i])
    {
      assert plugins[..i + 1][..i] == plugins[..i];
      for j := 0 to |plugins[i]|
        invariant entries == EntriesOf(plugins[..i]) + EntriesIn(plugins[i][..j])
      {
        entries := entries + [Entry(plugins[i][j])];
        assert EntriesIn(plugins[i][..j + 1]) == EntriesIn(plugins[i][..j]) + [Entry(plugins[i][j])];
      }
      assert plugins[i][..|plugins[i]|] == plugins[i];
    }
    assert plugins[..|plugins|] == plugins;
    if entries != [] {
      ServicesMarksGood();
      patched := Insert(SERVICES, patched, Join(entries));
    }
  }

  /**
    Patching after any earlier plugins gives the same as patching the stock file exactly if there
    was nowhere to insert or no earlier service's name or settings hold a closing line.
   */
  lemma PatchForgetsIff(stock: string, earlier: seq<seq<Service>>, plugins: seq<seq<Service>>)
    requires Lacks(stock, HEADER)
    ensures Patch(Patch(stock, EntriesOf(earlier)), EntriesOf(plugins)) == Patch(stock, EntriesOf(plugins)) <==>
              Lacks(stock, ANCHOR) || TidyServices(earlier)
  {
    hide Strip, Insert, Join, Lacks, Marks.Good, EndsIn, TidyServices;
    ServicesMarksGood();
    StripClean(SERVICES, stock);
    PatchUndoneIff(stock, earlier);
    if EntriesOf(plugins) != [] {
      if EntriesOf(earlier) == [] {
        NoEntriesIsTidy(earlier);
      } else {
        BodyIsNoHeader(earlier);
        TidyIff(earlier);
        InsertForgetsIff(SERVICES, stock, Join(EntriesOf(earlier)), Join(EntriesOf(plugins)));
      }
    }
  }

  /** The docstring's promise that applying the patch twice is applying it once, under the same condition. */
  lemma PatchIdempotentIff(stock: string, plugins: seq<seq<Service>>)
    requires Lacks(stock, HEADER)
    ensures Patch(Patch(stock, EntriesOf(plugins)), EntriesOf(plugins)) == Patch(stock, EntriesOf(plugins)) <==>
              Lacks(stock, ANCHOR) || TidyServices(plugins)
  {
    hide Patch, EntriesOf, TidyServices;
    PatchForgetsIff(stock, plugins, plugins);
  }
}
