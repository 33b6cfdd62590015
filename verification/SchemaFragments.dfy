/**
  Schema fragments whose braces do not pair up: when the patch of the reserved schema structs is
  still idempotent, told slot by slot.
 */
module SchemaFragments {
  import opened CustomSchema
  import opened Text
  import opened Wrappers

  /** A claim whose fragment declares no slot; its braces need not pair up. */
  ghost predicate FreeClaim(c: Claim, ids: seq<string>) {
    c.id in ids && Word(c.name) && FreeOf(c.fragment, ids)
  }

  /** Such claims, to different slots. */
  ghost predicate FreeClaims(cs: seq<Claim>, ids: seq<string>) {
    && (forall i :: 0 <= i < |cs| ==> FreeClaim(cs[i], ids))
    && (forall i, j :: 0 <= i < j < |cs| ==> cs[i].id != cs[j].id)
  }

  function Body(c: Claim): string {
    "\n" + c.fragment + "\n"
  }

  /** The walk over a slot's body, its closing brace and the rest of the file: how far it goes, or -1. */
  function Walk(parts: seq<Part>, j: nat): int
    requires j < |parts|
  {
    CloseBrace(parts[j].body + ("}" + Render(parts[j + 1..], "\n")), 1)
  }

  /** The walk ends at the slot's own brace. */
  predicate Closes(parts: seq<Part>, j: nat)
    requires j < |parts|
  {
    Walk(parts, j) == |parts[j].body| + 1
  }

  // ---------- the walk ----------

  lemma {:induction false} CloseEnds(t: string, d: int)
    requires CloseBrace(t, d) >= 0
    ensures 1 <= CloseBrace(t, d) <= |t| && t[CloseBrace(t, d) - 1] == '}'
  {
    var e := if t[0] == '{' then d + 1 else if t[0] == '}' then d - 1 else d;
    if !(t[0] == '}' && e == 0) {
      CloseEnds(t[1..], e);
    }
  }

  lemma MatchEnds(s: string, id: string)
    requires Match(s, id).Some?
    ensures s[Match(s, id).value.end - 1] == '}'
  {
    var p := FindDecl(s, 0, id);
    CloseEnds(s[OpenBrace(s, p, id)..], 0);
  }

  /** What the walk passes before the brace that ends it is balanced. */
  lemma WalkPassesBalanced(t: string)
    requires CloseBrace(t, 1) >= 0
    ensures var r := CloseBrace(t, 1);
            1 <= r <= |t| && t[r - 1] == '}' && Balanced(t[..r - 1])
  {
    hide CloseBrace, Depth;
    var r := CloseBrace(t, 1);
    CloseEnds(t, 1);
    CloseBraceIsFirst(t, 1, r - 1);
    var a := t[..r - 1];
    assert t[..r] == a + "}";
    DepthConcat(a, "}", 1);
    OneBrace(Depth(a, 1));
  }

  lemma OneBrace(d: nat)
    requires d >= 1
    ensures Depth("}", d) == d - 1
  {
    assert "}"[1..] == "";
  }

  /** The walk that begins in a body ends at its own brace exactly if the body is balanced; earlier, it cuts off a balanced part. */
  lemma WalkInBody(body: string, rest: string)
    ensures var r := CloseBrace(body + ("}" + rest), 1);
            && (r == |body| + 1 <==> Balanced(body))
            && (0 <= r <= |body| ==> r >= 1 && body[r - 1] == '}' && Balanced(body[..r - 1]))
  {
    hide CloseBrace, Balanced;
    var t := body + ("}" + rest);
    var r := CloseBrace(t, 1);
    if Balanced(body) {
      BalancedBody(body, rest);
    } else if 0 <= r <= |body| + 1 {
      WalkPassesBalanced(t);
      assert t[..r - 1] == body[..r - 1];
      assert body[..|body|] == body;
    }
  }

  lemma ClosesIff(parts: seq<Part>, j: nat)
    requires j < |parts|
    ensures Closes(parts, j) <==> Balanced(parts[j].body)
  {
    WalkInBody(parts[j].body, Render(parts[j + 1..], "\n"));
  }

  /** How far a walk goes is told by the text it passes. */
  lemma {:induction false} WalkIsLocal(x: string, y: string, d: int)
    requires CloseBrace(x, d) >= 0 && CloseBrace(x, d) <= |y| && x[..CloseBrace(x, d)] == y[..CloseBrace(x, d)]
    ensures CloseBrace(y, d) == CloseBrace(x, d)
  {
    CloseEnds(x, d);
    var r := CloseBrace(x, d);
    assert x[0] == x[..r][0] == y[..r][0] == y[0];
    var e := if x[0] == '{' then d + 1 else if x[0] == '}' then d - 1 else d;
    if !(x[0] == '}' && e == 0) {
      assert x[1..][..r - 1] == x[..r][1..] == y[..r][1..] == y[1..][..r - 1];
      WalkIsLocal(x[1..], y[1..], e);
    }
  }

  /** A walk that does not end in a text does not end in the text cut short. */
  lemma WalkFailsEarlier(x: string, m: nat, d: int)
    requires CloseBrace(x, d) < 0 && m <= |x|
    ensures CloseBrace(x[..m] + "\n", d) < 0
  {
    hide CloseBrace;
    var t := x[..m] + "\n";
    if CloseBrace(t, d) >= 0 {
      CloseEnds(t, d);
      var r := CloseBrace(t, d);
      assert r <= m;
      assert t[..r] == x[..r];
      WalkIsLocal(t, x, d);
    }
  }

  // ---------- where the slots lie ----------

  /** Where a slot's struct begins. */
  function Start(parts: seq<Part>, j: nat): nat
    requires j < |parts|
  {
    |Render(parts[..j], parts[j].before)|
  }

  /** Where its body does. */
  function BodyStart(parts: seq<Part>, j: nat): nat
    requires j < |parts|
  {
    Start(parts, j) + |STRUCT| + |parts[j].name| + |Key(parts[j].id)|
  }

  lemma LineEndFree(ids: seq<string>)
    requires GoodIds(ids)
    ensures FreeOf("\n", ids)
  {
    forall id | id in ids
      ensures Free("\n", Key(id))
    {
      ShortFree("\n", id);
    }
  }

  lemma StartNext(parts: seq<Part>, j: nat)
    requires j + 1 < |parts|
    ensures Start(parts, j + 1) == Start(parts, j) + |Block(parts[j])| + |parts[j + 1].before|
  {
    hide Block;
    var front, b := parts[..j + 1], parts[j + 1].before;
    RenderSplit(front, b, j);
    assert front[..j] == parts[..j] && front[j + 1..] == [];
    assert Render([], b) == b;
  }

  lemma {:induction false} StartsGrow(parts: seq<Part>, j: nat, k: nat)
    requires j < k < |parts|
    ensures Start(parts, j) + |Block(parts[j])| <= Start(parts, k)
    decreases k
  {
    hide Start, Block;
    StartNext(parts, k - 1);
    if j < k - 1 {
      StartsGrow(parts, j, k - 1);
    }
  }

  /** The file around a slot: where its key and its struct are. */
  lemma SlotAt(parts: seq<Part>, ids: seq<string>, j: nat)
    requires GoodIds(ids) && TextParts(parts, ids) && j < |parts|
    ensures var s, p, a := Render(parts, "\n"), parts[j], Start(parts, j);
            && s == Render(parts[..j], p.before) + (Block(p) + Render(parts[j + 1..], "\n"))
            && a + |Block(p)| < |s| && BodyStart(parts, j) + |p.body| + 1 == a + |Block(p)|
            && OnlyAt(s, Key(p.id), a + |STRUCT| + |p.name|)
            && Occurs(s, a, STRUCT) && (forall q :: a + |STRUCT| <= q < a + |STRUCT| + |p.name| ==> WordChar(s[q]))
            && s[a + |STRUCT|..a + |STRUCT| + |p.name|] == p.name
            && s[BodyStart(parts, j)..] == p.body + ("}" + Render(parts[j + 1..], "\n"))
  {
    hide Key, Block, Render, FreeOf, OnlyAt, Occurs;
    var s, p := Render(parts, "\n"), parts[j];
    var left, right := Render(parts[..j], p.before), Render(parts[j + 1..], "\n");
    assert TextPart(p, ids);
    LineEndFree(ids);
    KeyAtSlot(parts, "\n", ids, j);
    RenderSplit(parts, "\n", j);
    Letters(left, p, right);
    BlockOn(p, right);
    InFile(left, p.name, Key(p.id), p.body, right);
    RestNonEmpty(parts[j + 1..]);
  }

  lemma InFile(left: string, name: string, key: string, body: string, right: string)
    ensures var s := left + ((STRUCT + name) + (key + ((body + "}") + right)));
            && s[|left| + |STRUCT|..|left| + |STRUCT| + |name|] == name
            && s[|left| + |STRUCT| + |name| + |key|..] == body + ("}" + right)
  {
    var s := left + ((STRUCT + name) + (key + ((body + "}") + right)));
    assert s[|left| + |STRUCT| + |name|..] == key + ((body + "}") + right);
    assert (body + "}") + right == body + ("}" + right);
  }

  lemma {:induction false} RestNonEmpty(parts: seq<Part>)
    ensures Render(parts, "\n") != ""
  {
  }

  lemma WalkFromIs(parts: seq<Part>, j: nat)
    requires j < |parts|
    ensures WalkFrom(Render(parts[..j], parts[j].before), parts[j], Render(parts[j + 1..], "\n"))
            == if Walk(parts, j) < 0 then None
               else Some(StructMatch(Start(parts, j), BodyStart(parts, j) + Walk(parts, j)))
  {
    hide Render, Key, CloseBrace;
  }

  /** The match of a slot, by the walk over its body. */
  lemma MatchSlot(parts: seq<Part>, ids: seq<string>, j: nat)
    requires GoodIds(ids) && TextParts(parts, ids) && j < |parts|
    ensures Match(Render(parts, "\n"), parts[j].id)
            == if Walk(parts, j) < 0 then None
               else Some(StructMatch(Start(parts, j), BodyStart(parts, j) + Walk(parts, j)))
  {
    hide *;
    LineEndFree(ids);
    MatchWalks(parts, "\n", ids, j);
    WalkFromIs(parts, j);
  }

  /** Two declarations with the one occurrence of a key begin in the same place. */
  lemma SameDecl(s: string, q: nat, a: nat, b: nat)
    requires q <= |s| && Occurs(s, a, STRUCT) && Occurs(s, b, STRUCT) && a + |STRUCT| < q && b + |STRUCT| < q
    requires forall i :: a + |STRUCT| <= i < q ==> WordChar(s[i])
    requires forall i :: b + |STRUCT| <= i < q ==> WordChar(s[i])
    ensures a == b
  {
    OccursLetter(s, a, STRUCT, 6);
    OccursLetter(s, b, STRUCT, 6);
  }

  // ---------- no slot is declared twice ----------

  ghost predicate Single(s: string, k: string) {
    forall p, q :: Occurs(s, p, k) && Occurs(s, q, k) ==> p == q
  }

  /** Each key occurs at most once, and not at all if the file has no such slot. */
  ghost predicate Sparse(s: string, parts: seq<Part>, ids: seq<string>) {
    forall id :: id in ids ==>
      Single(s, Key(id)) && ((forall i :: 0 <= i < |parts| ==> parts[i].id != id) ==> Free(s, Key(id)))
  }

  lemma SparseFile(parts: seq<Part>, ids: seq<string>)
    requires GoodIds(ids) && TextParts(parts, ids)
    ensures Sparse(Render(parts, "\n"), parts, ids)
  {
    hide Key, Render, Occurs, FreeOf, TextParts;
    LineEndFree(ids);
    forall id | id in ids
      ensures Single(Render(parts, "\n"), Key(id))
      ensures (forall i :: 0 <= i < |parts| ==> parts[i].id != id) ==> Free(Render(parts, "\n"), Key(id))
    {
      if i :| 0 <= i < |parts| && parts[i].id == id {
        SlotAt(parts, ids, i);
      } else {
        assert Free("\n", Key(id));
        FreeThrough(parts, "\n", ids, id);
      }
    }
  }

  /** A key in a text cut short is where it was. */
  lemma KeyInCut(s: string, n: nat, id: string, q: int)
    requires n <= |s| && Word(id) && Occurs(s[..n] + "\n", q, Key(id))
    ensures Occurs(s, q, Key(id)) && q + |Key(id)| <= n
  {
    hide Key;
    var t, k := s[..n] + "\n", Key(id);
    KeyShape(id);
    assert t[n] == '\n';
    OccursLetter(t, q, k, |k| - 1);
    assert t[q..q + |k|] == s[q..q + |k|];
  }

  lemma SparseCut(s: string, n: nat, parts: seq<Part>, ids: seq<string>)
    requires GoodIds(ids) && Sparse(s, parts, ids) && n <= |s|
    ensures Sparse(s[..n] + "\n", parts, ids)
  {
    hide Key, Occurs;
    var t := s[..n] + "\n";
    forall id | id in ids
      ensures Single(t, Key(id))
      ensures Free(s, Key(id)) ==> Free(t, Key(id))
    {
      forall q | Occurs(t, q, Key(id))
        ensures Occurs(s, q, Key(id))
      {
        KeyInCut(s, n, id, q);
      }
    }
  }

  /** The new struct of a claim, as a slot without text before it. */
  function ClaimPart(c: Claim): Part {
    Part("", c.name, c.id, Body(c))
  }

  /** A matched struct: where its key is, and what it looks like. */
  lemma MatchShape(s: string, id: string)
    requires Word(id) && Match(s, id).Some?
    ensures var m := Match(s, id).value;
            var q := WordEnd(s, m.start + |STRUCT|);
            && Occurs(s, m.start, STRUCT) && m.start + |STRUCT| < q && Occurs(s, q, Key(id))
            && (forall i :: m.start + |STRUCT| <= i < q ==> WordChar(s[i]))
            && q + |Key(id)| < m.end <= |s| && s[m.end - 1] == '}'
            && Balanced(s[q + |Key(id)|..m.end - 1])
  {
    hide Key, CloseBrace, Balanced, Match, Occurs, WordEnd;
    var p := MatchFound(s, id);
    var q := WordEnd(s, p + |STRUCT|);
    WordEndWords(s, p + |STRUCT|);
    FitsDecl(s, p, q, id);
    BraceWalk(s, q + |Key(id)| - 1);
  }

  lemma MatchFound(s: string, id: string) returns (p: nat)
    requires Word(id) && Match(s, id).Some?
    ensures p <= |s| && DeclAt(s, p, id)
    ensures var open := WordEnd(s, p + |STRUCT|) + |Key(id)| - 1;
            && 0 <= open < |s| && CloseBrace(s[open..], 0) >= 0
            && Match(s, id).value == StructMatch(p, open + CloseBrace(s[open..], 0))
  {
    hide Key, CloseBrace, FindDecl, DeclAt;
    p := FindDecl(s, 0, id);
  }

  lemma FitsDecl(s: string, p: nat, q: nat, id: string)
    requires Word(id) && Occurs(s, q, Key(id)) && p <= q
    ensures q + |Key(id)| <= |s| && s[q + |Key(id)| - 1] == '{'
  {
    KeyShape(id);
    OccursLetter(s, q, Key(id), |Key(id)| - 1);
  }

  lemma BraceWalk(s: string, open: nat)
    requires open < |s| && s[open] == '{' && CloseBrace(s[open..], 0) >= 0
    ensures var end := open + CloseBrace(s[open..], 0);
            open + 1 < end <= |s| && s[end - 1] == '}' && Balanced(s[open + 1..end - 1])
  {
    hide Balanced;
    var walk := s[open + 1..];
    assert s[open..][1..] == walk;
    WalkPassesBalanced(walk);
    var r := CloseBrace(walk, 1);
    assert walk[..r - 1] == s[open + 1..open + r];
  }

  /** A key of another slot lies before the replaced struct or behind it, as it did before. */
  lemma KeyAround(s: string, m: StructMatch, c: Claim, id: string, q: int)
    requires m.start < m.end <= |s| && Word(id) && Word(c.id) && Word(c.name) && Free(c.fragment, Key(id)) && id != c.id
    requires var t := s[..m.start] + (Replacement(c) + s[m.end..]);
             Occurs(t, q, Key(id))
    ensures var n := |Replacement(c)|;
            if q + |Key(id)| <= m.start then Occurs(s, q, Key(id))
            else q >= m.start + n && Occurs(s, q - n - m.start + m.end, Key(id))
  {
    hide Key, Block, Replacement, Occurs, Free;
    var left, right, p, k := s[..m.start], s[m.end..], ClaimPart(c), Key(id);
    OccursFits(left + (Replacement(c) + right), q, k);
    ReplacementIs(p, c);
    assert PartClaimed(p, c) == p;
    assert left + s[m.start..] == s && s[..m.end] + right == s;
    if q + |k| <= m.start {
      OccursEarlier(left, Block(p) + right, q, k);
      OccursEarlier(left, s[m.start..], q, k);
    } else if q < m.start {
      BlockStarts(p, right);
      KeyAcross(left, Block(p) + right, id, q, m.start - q);
    } else {
      OccursLater(left, Block(p) + right, q, k);
      BodyFree(c, id);
      FreeEmpty(id);
      NoneBeginsPart(p, right, id);
      OccursLater(Block(p), right, q - m.start, k);
      OccursLater(s[..m.end], right, q - |Block(p)| - m.start + m.end, k);
    }
  }

  lemma BodyFree(c: Claim, id: string)
    requires Word(id) && Free(c.fragment, Key(id))
    ensures Free(Body(c), Key(id))
  {
    FreeBody(c.fragment, [id]);
  }

  /** The claimed slot's own key is in the new struct only. */
  lemma OwnKey(s: string, c: Claim)
    requires Word(c.id) && Word(c.name) && Free(c.fragment, Key(c.id)) && Single(s, Key(c.id)) && Match(s, c.id).Some?
    ensures OnlyAt(Claimed(s, c), Key(c.id), Match(s, c.id).value.start + |STRUCT| + |c.name|)
  {
    var m := Match(s, c.id).value;
    MatchShape(s, c.id);
    hide Key, Block, Replacement, Match, Occurs, Balanced, WordEnd;
    var left, right, p, k := s[..m.start], s[m.end..], ClaimPart(c), Key(c.id);
    ReplacementIs(p, c);
    assert PartClaimed(p, c) == p;
    assert left + s[m.start..] == s && s[..m.end] + right == s;
    forall q
      ensures !Occurs(left, q, k) && !Occurs(right, q, k)
    {
      if Occurs(left, q, k) {
        OccursFits(left, q, k);
        OccursEarlier(left, s[m.start..], q, k);
      }
      if Occurs(right, q, k) {
        OccursFits(right, q, k);
        OccursLater(s[..m.end], right, q + m.end, k);
      }
    }
    BodyFree(c, c.id);
    OnlyInBlock(p, right);
    BlockStarts(p, right);
    NoneBeginsBefore(left, Block(p) + right, c.id);
    OnlyAfter(left, Block(p) + right, k, |STRUCT| + |c.name|);
  }

  lemma OccursFits(s: string, q: int, k: string)
    requires Occurs(s, q, k)
    ensures 0 <= q && q + |k| <= |s|
  {
  }

  /** A claim declares no slot twice. */
  lemma SparseClaimed(s: string, parts: seq<Part>, ids: seq<string>, c: Claim)
    requires GoodIds(ids) && FreeClaim(c, ids) && Sparse(s, parts, ids)
    ensures Sparse(Claimed(s, c), parts, ids)
  {
    hide Key, Occurs, Match, Replacement;
    if Match(s, c.id).Some? {
      var m, t := Match(s, c.id).value, Claimed(s, c);
      forall id | id in ids
        ensures Single(t, Key(id))
        ensures (forall i :: 0 <= i < |parts| ==> parts[i].id != id) ==> Free(t, Key(id))
      {
        if id == c.id {
          OwnKey(s, c);
          MatchShape(s, id);
        } else {
          forall q | Occurs(t, q, Key(id))
            ensures var n := |Replacement(c)|;
                    if q + |Key(id)| <= m.start then Occurs(s, q, Key(id))
                    else q >= m.start + n && Occurs(s, q - n - m.start + m.end, Key(id))
          {
            KeyAround(s, m, c, id, q);
          }
        }
      }
    }
  }

  lemma {:induction false} SparseAll(s: string, parts: seq<Part>, ids: seq<string>, cs: seq<Claim>)
    requires GoodIds(ids) && FreeClaims(cs, ids) && Sparse(s, parts, ids)
    ensures Sparse(AllClaimed(s, cs), parts, ids)
  {
    hide Sparse, Claimed;
    if cs != [] {
      SparseAll(s, parts, ids, cs[..|cs| - 1]);
      SparseClaimed(AllClaimed(s, cs[..|cs| - 1]), parts, ids, cs[|cs| - 1]);
    }
  }

  // ---------- patching once ----------

  /** Every slot that a claim names holds what the claim puts there. */
  ghost predicate Held(q: seq<Part>, cs: seq<Claim>) {
    forall i, k :: 0 <= i < |q| && 0 <= k < |cs| && cs[k].id == q[i].id ==>
      q[i].name == cs[k].name && q[i].body == Body(cs[k])
  }

  /** A claim to a slot that is still balanced replaces that slot's struct. */
  lemma ClaimPlaces(parts: seq<Part>, ids: seq<string>, i: nat, c: Claim)
    requires GoodIds(ids) && TextParts(parts, ids) && FreeClaim(c, ids)
    requires i < |parts| && parts[i].id == c.id && Balanced(parts[i].body)
    ensures var r := parts[i := PartClaimed(parts[i], c)];
            TextParts(r, ids) && Claimed(Render(parts, "\n"), c) == Render(r, "\n")
  {
    hide Key, Block, Balanced, Match, Render, Free;
    var r := parts[i := PartClaimed(parts[i], c)];
    FreeBody(c.fragment, ids);
    LineEndFree(ids);
    MatchIsBlock(parts, "\n", ids, i);
    RenderSplit(parts, "\n", i);
    RenderSplit(r, "\n", i);
    assert r[..i] == parts[..i] && r[i + 1..] == parts[i + 1..];
    Replaced(Render(parts[..i], parts[i].before), parts[i], Render(parts[i + 1..], "\n"), Render(parts, "\n"));
    ReplacementIs(parts[i], c);
  }

  lemma NotClaimedBefore(cs: seq<Claim>, ids: seq<string>)
    requires FreeClaims(cs, ids) && cs != []
    ensures FreeClaims(cs[..|cs| - 1], ids) && !Claims(cs[..|cs| - 1], cs[|cs| - 1].id)
  {
    hide FreeClaim;
    var front := cs[..|cs| - 1];
    forall i | 0 <= i < |front|
      ensures front[i].id != cs[|cs| - 1].id
    {
      assert front[i] == cs[i];
    }
  }

  /** From a well-formed file every claim finds its slot, whatever the others left in theirs. */
  lemma {:induction false} ClaimsOnce(parts: seq<Part>, ids: seq<string>, cs: seq<Claim>)
    requires GoodIds(ids) && GoodParts(parts, ids) && FreeClaims(cs, ids)
    ensures TextParts(PartsAfter(parts, cs), ids)
    ensures AllClaimed(Render(parts, "\n"), cs) == Render(PartsAfter(parts, cs), "\n")
  {
    hide Claimed, Render, FreeClaim, TextPart, Balanced;
    if cs == [] {
      assert PartsAfter(parts, cs) == parts;
    } else {
      var front, c := cs[..|cs| - 1], cs[|cs| - 1];
      var q := PartsAfter(parts, front);
      NotClaimedBefore(cs, ids);
      ClaimsOnce(parts, ids, front);
      assert front + [c] == cs;
      if i :| 0 <= i < |parts| && parts[i].id == c.id {
        LastClaimWins(parts[i], parts[i], front);
        ClaimPlaces(q, ids, i, c);
        OneSlotChanges(parts, ids, front, c, i);
      } else {
        NoSlot(parts, ids, front, c);
      }
    }
  }

  lemma OneSlotChanges(parts: seq<Part>, ids: seq<string>, front: seq<Claim>, c: Claim, i: nat)
    requires TextParts(parts, ids) && i < |parts| && parts[i].id == c.id
    ensures var q := PartsAfter(parts, front);
            PartsAfter(parts, front + [c]) == q[i := PartClaimed(q[i], c)]
  {
    var q := PartsAfter(parts, front);
    forall k | 0 <= k < |parts|
      ensures PartAfter(parts[k], front + [c]) == if k == i then PartClaimed(q[i], c) else q[k]
    {
      LastClaimWins(parts[k], parts[k], front);
      assert (front + [c])[..|front|] == front;
    }
  }

  lemma NoSlot(parts: seq<Part>, ids: seq<string>, front: seq<Claim>, c: Claim)
    requires GoodIds(ids) && FreeClaim(c, ids) && TextParts(PartsAfter(parts, front), ids)
    requires forall i :: 0 <= i < |parts| ==> parts[i].id != c.id
    ensures PartsAfter(parts, front + [c]) == PartsAfter(parts, front)
    ensures Claimed(Render(PartsAfter(parts, front), "\n"), c) == Render(PartsAfter(parts, front), "\n")
  {
    hide Match, Render, TextPart;
    var q := PartsAfter(parts, front);
    forall k | 0 <= k < |parts|
      ensures PartAfter(parts[k], front + [c]) == q[k] && q[k].id != c.id
    {
      LastClaimWins(parts[k], parts[k], front);
      assert (front + [c])[..|front|] == front;
    }
    LineEndFree(ids);
    MatchNone(q, "\n", ids, c.id);
  }

  /** What the patch leaves: claimed slots hold their claim, the others are as they were. */
  lemma HeldAfter(parts: seq<Part>, ids: seq<string>, cs: seq<Claim>)
    requires FreeClaims(cs, ids)
    ensures Held(PartsAfter(parts, cs), cs)
    ensures forall i :: 0 <= i < |parts| && !Claims(cs, parts[i].id) ==> PartsAfter(parts, cs)[i] == parts[i]
    ensures forall i :: 0 <= i < |parts| ==> PartsAfter(parts, cs)[i].id == parts[i].id
  {
    forall i | 0 <= i < |parts|
      ensures PartAfter(parts[i], cs).id == parts[i].id
      ensures !Claims(cs, parts[i].id) ==> PartAfter(parts[i], cs) == parts[i]
      ensures forall k :: 0 <= k < |cs| && cs[k].id == parts[i].id ==>
                PartAfter(parts[i], cs).name == cs[k].name && PartAfter(parts[i], cs).body == Body(cs[k])
    {
      LastClaimWins(parts[i], parts[i], cs);
      HeldIn(parts[i], ids, cs);
    }
  }

  lemma {:induction false} HeldIn(p: Part, ids: seq<string>, cs: seq<Claim>)
    requires FreeClaims(cs, ids)
    ensures PartAfter(p, cs).id == p.id
    ensures forall k :: 0 <= k < |cs| && cs[k].id == p.id ==>
              PartAfter(p, cs).name == cs[k].name && PartAfter(p, cs).body == Body(cs[k])
  {
    hide FreeClaim;
    if cs != [] {
      NotClaimedBefore(cs, ids);
      HeldIn(p, ids, cs[..|cs| - 1]);
      assert forall k :: 0 <= k < |cs| - 1 ==> cs[..|cs| - 1][k] == cs[k];
    }
  }

  // ---------- what a patched file was before ----------

  lemma SplitSame(a: string, x: string, b: string, c: string, d: string)
    requires a + (x + b) == c + (x + d) && |a| == |c|
    ensures a == c && b == d
  {
    var s, t := a + (x + b), c + (x + d);
    assert s[..|a|] == a && t[..|c|] == c;
    assert s[|a| + |x|..] == b && t[|c| + |x|..] == d;
  }

  /** The struct that a claim matched, as a slot. */
  function Matched(s: string, before: string, id: string): Part
    requires Word(id) && Match(s, id).Some?
  {
    MatchShape(s, id);
    var m := Match(s, id).value;
    var q := WordEnd(s, m.start + |STRUCT|);
    Part(before, s[m.start + |STRUCT|..q], id, s[q + |Key(id)|..m.end - 1])
  }

  lemma MatchedIs(s: string, before: string, id: string)
    requires Word(id) && Match(s, id).Some?
    ensures var p := Matched(s, before, id);
            p.before == before && p.id == id && Word(p.name) && Balanced(p.body)
  {
    MatchShape(s, id);
  }

  lemma SameOnly(s: string, k: string, p: int, q: int)
    requires OnlyAt(s, k, p) && OnlyAt(s, k, q)
    ensures p == q
  {
    assert Occurs(s, p, k);
  }

  lemma StartIs(q: seq<Part>, i: nat)
    requires i < |q|
    ensures Start(q, i) == |Render(q[..i], q[i].before)|
  {
  }

  lemma MatchedBlock(s: string, before: string, id: string)
    requires Word(id) && Match(s, id).Some?
    ensures var m := Match(s, id).value;
            s == s[..m.start] + (Block(Matched(s, before, id)) + s[m.end..])
  {
    hide *;
    MatchShape(s, id);
    MatchedParts(s, before, id);
    var m := Match(s, id).value;
    var q := WordEnd(s, m.start + |STRUCT|);
    var p := Matched(s, before, id);
    BlockOn(p, s[m.end..]);
    Pieces(s, m.start, q, m.end, Key(id), p.name, p.body);
  }

  lemma MatchedParts(s: string, before: string, id: string)
    requires Word(id) && Match(s, id).Some?
    ensures var m, p := Match(s, id).value, Matched(s, before, id);
            var q := WordEnd(s, m.start + |STRUCT|);
            && m.start + |STRUCT| <= q && q + |Key(id)| < m.end <= |s|
            && p == Part(before, s[m.start + |STRUCT|..q], id, s[q + |Key(id)|..m.end - 1])
  {
    hide Match, Key, WordEnd, Balanced, Occurs;
    MatchShape(s, id);
  }

  lemma Pieces(s: string, a: nat, q: nat, e: nat, key: string, name: string, body: string)
    requires Occurs(s, a, STRUCT) && a + |STRUCT| <= q && Occurs(s, q, key) && q + |key| < e <= |s| && s[e - 1] == '}'
    requires name == s[a + |STRUCT|..q] && body == s[q + |key|..e - 1]
    ensures s == s[..a] + ((STRUCT + name) + (key + ((body + "}") + s[e..])))
  {
    SliceOn(s, a, STRUCT);
    SliceOn(s, q, key);
    hide Occurs;
    var u := q + |key|;
    assert (body + "}") + s[e..] == s[u..];
    Join(s, a, a + |STRUCT|, q);
    Join(s, 0, a, |s|);
    Join(s, a, q, |s|);
  }

  lemma SliceOn(s: string, i: nat, k: string)
    requires Occurs(s, i, k)
    ensures i + |k| <= |s| && s[i..] == k + s[i + |k|..] && s[i..i + |k|] == k
  {
    assert s[i..] == s[i..i + |k|] + s[i + |k|..];
  }

  lemma Join(s: string, i: nat, j: nat, k: nat)
    requires i <= j <= k <= |s|
    ensures s[i..j] + s[j..k] == s[i..k] && s[0..i] == s[..i] && s[j..|s|] == s[j..] && s[i..|s|] == s[i..] && s[0..] == s
  {
  }

  /** Where a key inside a matched struct's body lies. */
  lemma KeyInMatched(s: string, before: string, at: string, id: string, x: int)
    requires Word(at) && Match(s, at).Some? && Occurs(Matched(s, before, at).body, x, Key(id))
    ensures var m := Match(s, at).value;
            var q := WordEnd(s, m.start + |STRUCT|);
            var y := q + |Key(at)| + x;
            && Occurs(s, q, Key(at)) && Occurs(s, y, Key(id)) && q < y && m.start < y && y + |Key(id)| < m.end
  {
    hide *;
    MatchShape(s, at);
    MatchedParts(s, before, at);
    KeyShape(at);
    var m := Match(s, at).value;
    var u := WordEnd(s, m.start + |STRUCT|) + |Key(at)|;
    OccursFits(s[u..m.end - 1], x, Key(id));
    OccursInside(s, u, m.end - 1, x, Key(id));
  }

  lemma OccursInside(s: string, u: nat, e: nat, x: int, k: string)
    requires u <= e <= |s| && Occurs(s[u..e], x, k)
    ensures Occurs(s, u + x, k)
  {
    hide Occurs;
    OccursFits(s[u..e], x, k);
    OccursEarlier(s[u..e], s[e..], x, k);
    OccursLater(s[..u], s[u..e] + s[e..], u + x, k);
    assert s[..u] + (s[u..e] + s[e..]) == s;
  }

  /** A key that the patched file has in another slot was outside the struct that the claim matched. */
  lemma KeyOutside(s: string, q: seq<Part>, ids: seq<string>, j: nat, c: Claim) returns (y: int)
    requires GoodIds(ids) && TextParts(q, ids) && FreeClaim(c, ids)
    requires j < |q| && q[j].id != c.id && Match(s, c.id).Some? && Claimed(s, c) == Render(q, "\n")
    ensures var m := Match(s, c.id).value;
            Occurs(s, y, Key(q[j].id)) && (y + |Key(q[j].id)| <= m.start || y >= m.end)
  {
    hide Match, Key, Render, Replacement, Occurs, Balanced, Free;
    var m, id := Match(s, c.id).value, q[j].id;
    SlotAt(q, ids, j);
    assert TextPart(q[j], ids);
    y := Start(q, j) + |STRUCT| + |q[j].name|;
    assert Occurs(Render(q, "\n"), y, Key(id));
    KeyAround(s, m, c, id, y);
    if y + |Key(id)| > m.start {
      y := y - |Replacement(c)| - m.start + m.end;
    }
  }

  /** A struct that a claim matched held no declaration. */
  lemma MatchedFree(s: string, q: seq<Part>, ids: seq<string>, before: string, c: Claim, id: string)
    requires GoodIds(ids) && TextParts(q, ids) && Sparse(s, q, ids) && FreeClaim(c, ids) && id in ids
    requires Match(s, c.id).Some? && Claimed(s, c) == Render(q, "\n")
    ensures Free(Matched(s, before, c.id).body, Key(id))
  {
    hide Match, Matched, Key, WordEnd, Render, Claimed, Occurs, TextParts;
    forall x
      ensures !Occurs(Matched(s, before, c.id).body, x, Key(id))
    {
      if Occurs(Matched(s, before, c.id).body, x, Key(id)) {
        KeyInMatched(s, before, c.id, id, x);
        if j :| 0 <= j < |q| && q[j].id == id && id != c.id {
          var y := KeyOutside(s, q, ids, j, c);
        }
      }
    }
  }

  /**
    If a claim's result is a file whose slot holds the claim, then before it the text was that file
    with some balanced struct in the slot, or the claim found no match and it was that file.
   */
  lemma Unclaimed(s: string, q: seq<Part>, ids: seq<string>, i: nat, c: Claim) returns (m: Part)
    requires GoodIds(ids) && TextParts(q, ids) && Sparse(s, q, ids) && FreeClaim(c, ids)
    requires i < |q| && q[i].id == c.id && q[i].name == c.name && q[i].body == Body(c)
    requires Claimed(s, c) == Render(q, "\n")
    ensures m.id == q[i].id && m.before == q[i].before && TextParts(q[i := m], ids) && s == Render(q[i := m], "\n")
    ensures (m == q[i] && Match(s, c.id).None?) || Balanced(m.body)
  {
    hide Match, Matched, Key, Block, Render, Replacement, Occurs, Balanced, Free, Start, OnlyAt;
    if Match(s, c.id).None? {
      m := q[i];
      assert q[i := m] == q;
    } else {
      var v := Match(s, c.id).value;
      m := Matched(s, q[i].before, c.id);
      MatchedIs(s, q[i].before, c.id);
      OwnKey(s, c);
      SlotAt(q, ids, i);
      SameOnly(Claimed(s, c), Key(c.id), v.start + |STRUCT| + |c.name|, Start(q, i) + |STRUCT| + |c.name|);
      StartIs(q, i);
      MatchedBlock(s, q[i].before, c.id);
      ReplacementIs(q[i], c);
      assert PartClaimed(q[i], c) == q[i];
      SplitSame(s[..v.start], Block(q[i]), s[v.end..], Render(q[..i], q[i].before), Render(q[i + 1..], "\n"));
      var r := q[i := m];
      RenderSplit(r, "\n", i);
      assert r[..i] == q[..i] && r[i + 1..] == q[i + 1..];
      forall id | id in ids
        ensures Free(m.body, Key(id))
      {
        MatchedFree(s, q, ids, q[i].before, c, id);
      }
      assert FreeOf(m.body, ids);
      assert TextPart(q[i], ids) && TextPart(m, ids);
    }
  }

  ghost predicate Between(x: seq<Part>, q: seq<Part>, z: seq<Part>) {
    |x| == |q| == |z| && forall k :: 0 <= k < |x| ==> x[k] == q[k] || x[k] == z[k]
  }

  /** In some mixture of the two files the walk over this slot fails. */
  ghost predicate Stalls(q: seq<Part>, z: seq<Part>, j: nat) {
    exists x :: Between(x, q, z) && j < |x| && Walk(x, j) < 0
  }

  /** What a text was that the claims turned into a file holding them all. */
  ghost predicate Origin(z: seq<Part>, q: seq<Part>, ids: seq<string>, cs: seq<Claim>) {
    && |z| == |q| && TextParts(z, ids)
    && forall i :: 0 <= i < |q| ==>
         && z[i].id == q[i].id && z[i].before == q[i].before
         && (z[i] == q[i] || Balanced(z[i].body))
         && (!Claims(cs, q[i].id) ==> z[i] == q[i])
         && (Claims(cs, q[i].id) && z[i] == q[i] ==> Balanced(q[i].body) || Stalls(q, z, i))
  }

  lemma {:induction false} UnclaimAll(s: string, q: seq<Part>, ids: seq<string>, cs: seq<Claim>) returns (z: seq<Part>)
    requires GoodIds(ids) && TextParts(q, ids) && FreeClaims(cs, ids) && Held(q, cs) && Sparse(s, q, ids)
    requires AllClaimed(s, cs) == Render(q, "\n")
    decreases |cs|
    ensures Origin(z, q, ids, cs) && s == Render(z, "\n")
  {
    hide Claimed, Render, TextParts, FreeClaim, Sparse, Balanced, Walk, GoodIds;
    if cs == [] {
      z := q;
    } else {
      var n := |cs| - 1;
      var front, c := cs[..n], cs[n];
      NotClaimedBefore(cs, ids);
      assert forall k :: 0 <= k < n ==> front[k] == cs[k];
      SparseAll(s, q, ids, front);
      if i :| 0 <= i < |q| && q[i].id == c.id {
        var m := Unclaimed(AllClaimed(s, front), q, ids, i, c);
        var q1 := q[i := m];
        SparseSame(s, q, q1, ids);
        HeldStill(q, cs, ids, i, m);
        z := UnclaimAll(s, q1, ids, front);
        OriginStep(z, q, ids, cs, i, m, AllClaimed(s, front));
      } else {
        NoSlotBefore(AllClaimed(s, front), q, ids, c);
        z := UnclaimAll(s, q, ids, front);
        OriginSame(z, q, ids, cs);
      }
    }
  }

  lemma SparseSame(s: string, q: seq<Part>, r: seq<Part>, ids: seq<string>)
    requires Sparse(s, q, ids) && |q| == |r| && forall i :: 0 <= i < |q| ==> q[i].id == r[i].id
    ensures Sparse(s, r, ids)
  {
    hide Key, Single, Free;
  }

  lemma HeldStill(q: seq<Part>, cs: seq<Claim>, ids: seq<string>, i: nat, m: Part)
    requires FreeClaims(cs, ids) && cs != [] && Held(q, cs)
    requires i < |q| && q[i].id == cs[|cs| - 1].id == m.id
    ensures Held(q[i := m], cs[..|cs| - 1])
  {
    hide FreeClaim;
  }

  lemma NoSlotBefore(s: string, q: seq<Part>, ids: seq<string>, c: Claim)
    requires Sparse(s, q, ids) && FreeClaim(c, ids) && forall i :: 0 <= i < |q| ==> q[i].id != c.id
    ensures Claimed(s, c) == s
  {
    FindNone(s, 0, c.id);
  }

  lemma ClaimsOne(cs: seq<Claim>, id: string)
    requires cs != []
    ensures Claims(cs, id) <==> Claims(cs[..|cs| - 1], id) || cs[|cs| - 1].id == id
  {
    var front := cs[..|cs| - 1];
    if Claims(front, id) {
      var i :| 0 <= i < |front| && front[i].id == id;
      assert cs[i].id == id;
    }
    if i :| 0 <= i < |cs| && cs[i].id == id {
      assert i < |front| ==> front[i].id == id;
    }
  }

  lemma OriginSame(z: seq<Part>, q: seq<Part>, ids: seq<string>, cs: seq<Claim>)
    requires cs != [] && Origin(z, q, ids, cs[..|cs| - 1]) && forall i :: 0 <= i < |q| ==> q[i].id != cs[|cs| - 1].id
    ensures Origin(z, q, ids, cs)
  {
    hide TextParts, Balanced, Stalls, Claims;
    forall i | 0 <= i < |q|
      ensures Claims(cs, q[i].id) <==> Claims(cs[..|cs| - 1], q[i].id)
    {
      ClaimsOne(cs, q[i].id);
    }
  }

  lemma StallsWider(q: seq<Part>, q1: seq<Part>, z: seq<Part>, i: nat, j: nat)
    requires |q| == |q1| == |z| && i < |q| && q1 == q[i := q1[i]] && z[i] == q1[i] && Stalls(q1, z, j)
    ensures Stalls(q, z, j)
  {
    hide Walk;
    var x :| Between(x, q1, z) && j < |x| && Walk(x, j) < 0;
    assert Between(x, q, z);
  }

  lemma OriginStep(z: seq<Part>, q: seq<Part>, ids: seq<string>, cs: seq<Claim>, i: nat, m: Part, s: string)
    requires cs != [] && FreeClaims(cs, ids) && GoodIds(ids) && TextParts(q, ids)
    requires i < |q| && q[i].id == cs[|cs| - 1].id == m.id && q[i].before == m.before
    requires Origin(z, q[i := m], ids, cs[..|cs| - 1])
    requires s == Render(q[i := m], "\n") && ((m == q[i] && Match(s, m.id).None?) || Balanced(m.body))
    ensures Origin(z, q, ids, cs)
  {
    hide Balanced, Match, Render, FreeClaim, Claims, Walk, TextPart;
    var q1 := q[i := m];
    NotClaimedBefore(cs, ids);
    assert z[i] == m;
    if !Balanced(m.body) {
      assert q1 == q;
      MatchSlot(q, ids, i);
      assert Between(q, q, z) && Walk(q, i) < 0;
      assert Stalls(q, z, i);
    }
    forall k | 0 <= k < |q|
      ensures !Claims(cs, q[k].id) ==> z[k] == q[k]
      ensures Claims(cs, q[k].id) && z[k] == q[k] ==> Balanced(q[k].body) || Stalls(q, z, k)
    {
      ClaimsOne(cs, q[k].id);
      if k != i && z[k] == q[k] && Claims(cs, q[k].id) && !Balanced(q[k].body) {
        assert q[k].id != q[i].id;
        StallsWider(q, q1, z, i, k);
      }
    }
  }

  // ---------- cutting the file behind its last slot ----------

  lemma {:induction false} LastEndIsMost(s: string, ids: seq<string>)
    ensures forall id :: id in ids && Match(s, id).Some? ==> Match(s, id).value.end <= LastSlotEnd(s, ids)
    ensures LastSlotEnd(s, ids) > 0 ==>
              exists id :: id in ids && Match(s, id).Some? && Match(s, id).value.end == LastSlotEnd(s, ids)
  {
    hide Match;
    if ids != [] {
      LastEndIsMost(s, ids[..|ids| - 1]);
      assert ids[|ids| - 1] in ids;
    }
  }

  lemma StripShape(s: string, ids: seq<string>)
    ensures Stripped(s, ids) == if LastSlotEnd(s, ids) > 0 then s[..LastSlotEnd(s, ids)] + "\n" else s
  {
    hide Match, LastSlotEnd;
    var e := LastSlotEnd(s, ids);
    LastEndIsMost(s, ids);
    if e > 0 {
      var id :| id in ids && Match(s, id).Some? && Match(s, id).value.end == e;
      MatchEnds(s, id);
      assert s[..e][e - 1] == '}';
    }
  }

  /** The last end of a patched file is that of one of its slots. */
  lemma LastEndIsSlot(q: seq<Part>, ids: seq<string>)
    requires GoodIds(ids) && TextParts(q, ids)
    ensures var e := LastSlotEnd(Render(q, "\n"), ids);
            && (forall j :: 0 <= j < |q| && Walk(q, j) >= 0 ==> BodyStart(q, j) + Walk(q, j) <= e)
            && (e > 0 ==> exists j :: 0 <= j < |q| && Walk(q, j) >= 0 && BodyStart(q, j) + Walk(q, j) == e)
  {
    hide Match, LastSlotEnd, Render, Walk, BodyStart, Free, Key;
    var s, e := Render(q, "\n"), LastSlotEnd(Render(q, "\n"), ids);
    LastEndIsMost(s, ids);
    forall j | 0 <= j < |q| && Walk(q, j) >= 0
      ensures BodyStart(q, j) + Walk(q, j) <= e
    {
      MatchSlot(q, ids, j);
      assert TextPart(q[j], ids);
    }
    if e > 0 {
      var id :| id in ids && Match(s, id).Some? && Match(s, id).value.end == e;
      if j :| 0 <= j < |q| && q[j].id == id {
        MatchSlot(q, ids, j);
      } else {
        LineEndFree(ids);
        MatchNone(q, "\n", ids, id);
      }
    }
  }

  // ---------- two files that begin alike ----------

  lemma OccursAlike(x: string, y: string, n: nat, q: int, k: string)
    requires n <= |x| && n <= |y| && x[..n] == y[..n] && q + |k| <= n && Occurs(x, q, k)
    ensures Occurs(y, q, k)
  {
    assert x[q..q + |k|] == x[..n][q..q + |k|] == y[q..q + |k|];
  }

  lemma LettersAlike(x: string, y: string, n: nat, a: nat, b: nat)
    requires n <= |x| && n <= |y| && x[..n] == y[..n] && a <= b <= n
    ensures x[a..b] == y[a..b] && forall i :: a <= i < b ==> x[i] == y[i]
  {
    assert x[a..b] == x[..n][a..b];
    forall i | a <= i < b
      ensures x[i] == y[i]
    {
      assert x[i] == x[..n][i];
    }
  }

  /** The same slots with the same text between them, and one text begins with the other but for its last letter. */
  ghost predicate Alike(z: seq<Part>, q: seq<Part>, ids: seq<string>, n: nat) {
    && GoodIds(ids) && TextParts(z, ids) && TextParts(q, ids) && |z| == |q|
    && (forall k :: 0 <= k < |q| ==> z[k].id == q[k].id && z[k].before == q[k].before)
    && |Render(z, "\n")| == n + 1 && n <= |Render(q, "\n")| && Render(z, "\n")[..n] == Render(q, "\n")[..n]
  }

  /** Then each slot begins where it does in the other, under the same name. */
  lemma StartsAlike(z: seq<Part>, q: seq<Part>, ids: seq<string>, n: nat, k: nat)
    requires Alike(z, q, ids, n) && k < |q|
    ensures Start(z, k) == Start(q, k) && z[k].name == q[k].name && BodyStart(z, k) == BodyStart(q, k)
  {
    hide Key, Block, Render, Occurs, TextParts, GoodIds, Start;
    var x, y, a, b := Render(z, "\n"), Render(q, "\n"), Start(z, k), Start(q, k);
    SlotAt(z, ids, k);
    SlotAt(q, ids, k);
    var at := a + |STRUCT| + |z[k].name|;
    assert Occurs(x, at, Key(z[k].id));
    OccursAlike(x, y, n, at, Key(z[k].id));
    assert at == b + |STRUCT| + |q[k].name|;
    OccursAlike(x, y, n, a, STRUCT);
    LettersAlike(x, y, n, a + |STRUCT|, at);
    NamesNonEmpty(z, q, ids, k);
    SameDecl(y, at, a, b);
  }

  lemma NamesNonEmpty(z: seq<Part>, q: seq<Part>, ids: seq<string>, k: nat)
    requires TextParts(z, ids) && TextParts(q, ids) && k < |q| == |z|
    ensures z[k].name != "" && q[k].name != ""
  {
    assert TextPart(z[k], ids) && TextPart(q[k], ids);
  }

  /** Every slot but the last is the same. */
  lemma SlotsAlike(z: seq<Part>, q: seq<Part>, ids: seq<string>, n: nat, k: nat)
    requires Alike(z, q, ids, n) && k + 1 < |q|
    ensures z[k] == q[k]
  {
    hide Key, Block, Render, Occurs, TextParts, GoodIds, Start, OnlyAt;
    StartsAlike(z, q, ids, n, k);
    StartsAlike(z, q, ids, n, k + 1);
    StartNext(z, k);
    StartNext(q, k);
    SlotAt(z, ids, k);
    SlotAt(q, ids, k);
    var x, y, a := Render(z, "\n"), Render(q, "\n"), BodyStart(z, k);
    LettersAlike(x, y, n, a, a + |z[k].body|);
    BodyIs(x, a, z[k].body, "}" + Render(z[k + 1..], "\n"));
    BodyIs(y, a, q[k].body, "}" + Render(q[k + 1..], "\n"));
  }

  lemma BodyIs(s: string, a: nat, body: string, rest: string)
    requires a <= |s| && s[a..] == body + rest
    ensures a + |body| <= |s| && s[a..a + |body|] == body
  {
    assert s[a..a + |body|] == s[a..][..|body|];
  }

  /** A walk that ends within the common text is the same in both files. */
  lemma WalkAlike(z: seq<Part>, q: seq<Part>, ids: seq<string>, n: nat, k: nat)
    requires Alike(z, q, ids, n) && k < |q|
    ensures Walk(z, k) >= 0 && BodyStart(z, k) + Walk(z, k) <= n ==> Walk(q, k) == Walk(z, k)
    ensures Walk(q, k) >= 0 && BodyStart(q, k) + Walk(q, k) <= n ==> Walk(z, k) == Walk(q, k)
  {
    hide Key, Block, Render, Occurs, TextParts, GoodIds, Start, OnlyAt, CloseBrace;
    StartsAlike(z, q, ids, n, k);
    SlotAt(z, ids, k);
    SlotAt(q, ids, k);
    var x, y, a := Render(z, "\n"), Render(q, "\n"), BodyStart(z, k);
    if Walk(z, k) >= 0 && a + Walk(z, k) <= n {
      LettersAlike(x, y, n, a, a + Walk(z, k));
      TakeFrom(x, a, Walk(z, k));
      TakeFrom(y, a, Walk(z, k));
      WalkIsLocal(x[a..], y[a..], 1);
    }
    if Walk(q, k) >= 0 && a + Walk(q, k) <= n {
      LettersAlike(x, y, n, a, a + Walk(q, k));
      TakeFrom(x, a, Walk(q, k));
      TakeFrom(y, a, Walk(q, k));
      WalkIsLocal(y[a..], x[a..], 1);
    }
  }

  lemma TakeFrom(s: string, a: nat, r: nat)
    requires a + r <= |s|
    ensures s[a..][..r] == s[a..a + r]
  {
  }

  // ---------- exactly when ----------

  /**
    In every slot before the last the walk ends at the slot's own brace or nowhere, and in the last
    it ends, or no walk in the file does.
   */
  predicate Steady(q: seq<Part>)
    requires q != []
  {
    var n := |q| - 1;
    && (forall j :: 0 <= j < n ==> Walk(q, j) < 0 || Closes(q, j))
    && (Walk(q, n) >= 0 || forall j :: 0 <= j <= n ==> Walk(q, j) < 0)
  }

  /** A patched file: each slot holds its claim, or is still balanced. */
  ghost predicate PatchedFile(q: seq<Part>, ids: seq<string>, cs: seq<Claim>) {
    && q != [] && GoodIds(ids) && TextParts(q, ids) && FreeClaims(cs, ids) && Held(q, cs)
    && forall i :: 0 <= i < |q| && !Claims(cs, q[i].id) ==> Balanced(q[i].body)
  }

  /** A slot before the last whose claim changed nothing: its walk ends at its own brace or nowhere. */
  lemma UnchangedSlot(z: seq<Part>, q: seq<Part>, ids: seq<string>, cs: seq<Claim>, n: nat, j: nat)
    requires PatchedFile(q, ids, cs) && Origin(z, q, ids, cs) && Alike(z, q, ids, n) && j + 1 < |q|
    requires Walk(q, j) >= 0 ==> BodyStart(q, j) + Walk(q, j) <= n
    ensures Walk(q, j) < 0 || Closes(q, j)
  {
    hide TextParts, GoodIds, Balanced, Walk, BodyStart, Held, FreeClaims, Alike;
    ClosesIff(q, j);
    forall k | 0 <= k < |q| - 1
      ensures z[k] == q[k]
    {
      SlotsAlike(z, q, ids, n, k);
    }
    if !Balanced(q[j].body) {
      assert Stalls(q, z, j);
      var x :| Between(x, q, z) && j < |x| && Walk(x, j) < 0;
      var last := |q| - 1;
      if x[last] == q[last] {
        assert x == q;
      } else {
        assert x == z;
        WalkAlike(z, q, ids, n, j);
      }
    }
  }

  lemma OnlyIfSteady(q: seq<Part>, ids: seq<string>, cs: seq<Claim>)
    requires PatchedFile(q, ids, cs) && AllClaimed(Stripped(Render(q, "\n"), ids), cs) == Render(q, "\n")
    ensures Steady(q)
  {
    hide Render, Stripped, LastSlotEnd, Walk, Closes, BodyStart, AllClaimed, Sparse, TextParts, GoodIds, FreeClaims, Held, Balanced;
    var y, last := Render(q, "\n"), |q| - 1;
    var e := LastSlotEnd(y, ids);
    LastEndIsSlot(q, ids);
    StripShape(y, ids);
    if e > 0 {
      SparseFile(q, ids);
      SparseCut(y, e, q, ids);
      var z := UnclaimAll(y[..e] + "\n", q, ids, cs);
      assert Alike(z, q, ids, e) by {
        assert Render(z, "\n")[..e] == y[..e];
      }
      forall j | 0 <= j < last
        ensures Walk(q, j) < 0 || Closes(q, j)
      {
        UnchangedSlot(z, q, ids, cs, e, j);
      }
      LastCloses(z, q, ids, cs, e);
    } else {
      forall j | 0 <= j <= last
        ensures Walk(q, j) < 0
      {
        BodyAfterStart(q, ids, j);
      }
    }
  }

  lemma BodyAfterStart(q: seq<Part>, ids: seq<string>, j: nat)
    requires GoodIds(ids) && TextParts(q, ids) && j < |q|
    ensures BodyStart(q, j) > Start(q, j)
    ensures Closes(q, j) ==> BodyStart(q, j) + Walk(q, j) == Start(q, j) + |Block(q[j])|
    ensures Start(q, j) + |Block(q[j])| <= |Render(q, "\n")| - 1
  {
    hide Render, Walk, Start, Block, Key;
    SlotAt(q, ids, j);
  }

  lemma LastCloses(z: seq<Part>, q: seq<Part>, ids: seq<string>, cs: seq<Claim>, e: nat)
    requires PatchedFile(q, ids, cs) && Origin(z, q, ids, cs) && Alike(z, q, ids, e) && e > 0
    requires e == LastSlotEnd(Render(q, "\n"), ids)
    requires forall j :: 0 <= j < |q| - 1 ==> Walk(q, j) < 0 || Closes(q, j)
    ensures Walk(q, |q| - 1) >= 0
  {
    hide Render, LastSlotEnd, Walk, Closes, BodyStart, Start, TextParts, GoodIds, FreeClaims, Held, Balanced, Stalls, Block;
    var last := |q| - 1;
    LastEndIsSlot(q, ids);
    forall k | 0 <= k < last
      ensures z[k] == q[k]
    {
      SlotsAlike(z, q, ids, e, k);
    }
    if z[last] == q[last] {
      assert z == q;
      var j :| 0 <= j < |q| && Walk(q, j) >= 0 && BodyStart(q, j) + Walk(q, j) == e;
      if j < last {
        BodyAfterStart(q, ids, j);
        BodyAfterStart(q, ids, last);
        StartsGrow(q, j, last);
        BlockNonEmpty(q[last]);
      }
    } else {
      ClosesIff(z, last);
      BodyAfterStart(z, ids, last);
      ClosesMeans(z, last);
      WalkAlike(z, q, ids, e, last);
    }
  }

  lemma ClosesMeans(q: seq<Part>, j: nat)
    requires j < |q| && Closes(q, j)
    ensures Walk(q, j) >= 0
  {
  }

  lemma BlockNonEmpty(p: Part)
    ensures |Block(p)| > 0
  {
  }

  // ---------- and back ----------

  /** The last slot cut at the end of its walk. */
  function CutLast(q: seq<Part>): seq<Part>
    requires q != [] && 1 <= Walk(q, |q| - 1) <= |q[|q| - 1].body| + 1
  {
    var last := |q| - 1;
    q[last := q[last].(body := q[last].body[..Walk(q, last) - 1])]
  }

  lemma LastWalkStops(q: seq<Part>)
    requires q != [] && Walk(q, |q| - 1) >= 0
    ensures var p, r := q[|q| - 1], Walk(q, |q| - 1);
            1 <= r <= |p.body| + 1 && Balanced(p.body[..r - 1]) && (p.body + ("}" + "\n"))[r - 1] == '}'
  {
    hide CloseBrace, Balanced;
    var p, r := q[|q| - 1], Walk(q, |q| - 1);
    assert q[|q|..] == [] && Render([], "\n") == "\n";
    var t := p.body + ("}" + "\n");
    WalkPassesBalanced(t);
    assert t[|p.body| + 1] == '\n';
    assert t[..r - 1] == p.body[..r - 1];
  }

  lemma CutLastText(q: seq<Part>, ids: seq<string>)
    requires GoodIds(ids) && TextParts(q, ids) && q != [] && Walk(q, |q| - 1) >= 0
    ensures 1 <= Walk(q, |q| - 1) <= |q[|q| - 1].body| + 1 && TextParts(CutLast(q), ids)
    ensures Balanced(CutLast(q)[|q| - 1].body)
  {
    hide Balanced, Walk, Free;
    LastWalkStops(q);
    var last := |q| - 1;
    assert TextPart(q[last], ids);
    forall id | id in ids
      ensures Free(CutLast(q)[last].body, Key(id))
    {
      FreePrefix(q[last].body, Walk(q, last) - 1, Key(id));
    }
    assert TextPart(CutLast(q)[last], ids);
  }

  lemma CutLastIs(q: seq<Part>, ids: seq<string>)
    requires GoodIds(ids) && TextParts(q, ids) && q != [] && Walk(q, |q| - 1) >= 0
    ensures 1 <= Walk(q, |q| - 1) <= |q[|q| - 1].body| + 1
    ensures var last := |q| - 1;
            var e := BodyStart(q, last) + Walk(q, last);
            e <= |Render(q, "\n")| && Render(CutLast(q), "\n") == Render(q, "\n")[..e] + "\n"
  {
    hide Balanced, Walk, Render, Key, Block, Occurs, OnlyAt;
    var last, y := |q| - 1, Render(q, "\n");
    CutLastText(q, ids);
    LastWalkStops(q);
    SlotAt(q, ids, last);
    SlotAt(CutLast(q), ids, last);
    var x, r, a, body := Render(CutLast(q), "\n"), Walk(q, last), BodyStart(q, last), q[last].body;
    NoParts();
    assert CutLast(q)[..last] == q[..last] && q[|q|..] == [] == CutLast(q)[|q|..];
    RenderSplit(q, "\n", last);
    RenderSplit(CutLast(q), "\n", last);
    BlockOn(q[last], "\n");
    BlockOn(CutLast(q)[last], "\n");
    CutBody(Render(q[..last], q[last].before), STRUCT + q[last].name, Key(q[last].id), body, r);
  }

  lemma CutBody(left: string, head: string, key: string, body: string, r: nat)
    requires 1 <= r <= |body| + 1 && (body + ("}" + "\n"))[r - 1] == '}'
    ensures var y := left + (head + (key + ((body + "}") + "\n")));
            var e := |left| + |head| + |key| + r;
            e <= |y| && left + (head + (key + ((body[..r - 1] + "}") + "\n"))) == y[..e] + "\n"
  {
    var y, e := left + (head + (key + ((body + "}") + "\n"))), |left| + |head| + |key| + r;
    var front := left + (head + key);
    var t := body + ("}" + "\n");
    assert y == front + t;
    assert t[..r] == body[..r - 1] + "}";
    assert y[..e] == front + t[..r];
  }

  lemma NoParts()
    ensures Render([], "\n") == "\n"
  {
  }

  /** A walk that fails in the file fails in the file cut short. */
  lemma FailsInCut(q: seq<Part>, ids: seq<string>, j: nat)
    requires GoodIds(ids) && TextParts(q, ids) && j + 1 < |q| && Walk(q, |q| - 1) >= 0 && Walk(q, j) < 0
    ensures 1 <= Walk(q, |q| - 1) <= |q[|q| - 1].body| + 1 && Walk(CutLast(q), j) < 0
  {
    hide Balanced, Render, Key, Block, Occurs, OnlyAt, Start, CloseBrace, TextParts;
    var last, y := |q| - 1, Render(q, "\n");
    CutLastText(q, ids);
    CutLastIs(q, ids);
    var z, e, a := CutLast(q), BodyStart(q, last) + Walk(q, last), BodyStart(q, j);
    SlotAt(q, ids, j);
    SlotAt(z, ids, j);
    assert z[..j] == q[..j] && z[j] == q[j];
    StartAlone(q, z, j);
    StartsGrow(q, j, last);
    assert a <= e;
    assert Render(z, "\n")[a..] == y[a..][..e - a] + "\n";
    WalkFailsEarlier(y[a..], e - a, 1);
  }

  lemma StartAlone(q: seq<Part>, z: seq<Part>, j: nat)
    requires j < |q| && j < |z| && z[..j] == q[..j] && z[j] == q[j]
    ensures Start(z, j) == Start(q, j)
  {
  }

  /** Claiming a slot again that holds the claim, closed by its own brace or by none, changes nothing. */
  lemma ClaimedStill(z: seq<Part>, ids: seq<string>, i: nat, c: Claim)
    requires GoodIds(ids) && TextParts(z, ids) && FreeClaim(c, ids) && i < |z|
    requires z[i].id == c.id && z[i].name == c.name && z[i].body == Body(c)
    requires Balanced(z[i].body) || Walk(z, i) < 0
    ensures Claimed(Render(z, "\n"), c) == Render(z, "\n")
  {
    hide Balanced, Render, Match, TextParts, FreeClaim, Replacement, Walk;
    if Balanced(z[i].body) {
      ClaimPlaces(z, ids, i, c);
      assert PartClaimed(z[i], c) == z[i];
      assert z[i := z[i]] == z;
    } else {
      MatchSlot(z, ids, i);
    }
  }

  lemma {:induction false} ClaimsRestore(q: seq<Part>, ids: seq<string>, cs: seq<Claim>)
    requires GoodIds(ids) && TextParts(q, ids) && q != [] && FreeClaims(cs, ids) && Held(q, cs)
    requires Steady(q) && Walk(q, |q| - 1) >= 0
    ensures 1 <= Walk(q, |q| - 1) <= |q[|q| - 1].body| + 1
    ensures AllClaimed(Render(CutLast(q), "\n"), cs)
            == Render(if Claims(cs, q[|q| - 1].id) then q else CutLast(q), "\n")
  {
    hide Balanced, Render, Walk, Claimed, TextPart, FreeClaim, GoodIds, Claims;
    CutLastText(q, ids);
    var last, cut := |q| - 1, CutLast(q);
    if cs == [] {
      NothingClaimed(q[last].id);
    } else {
      var front, c := cs[..|cs| - 1], cs[|cs| - 1];
      NotClaimedBefore(cs, ids);
      assert Held(q, front);
      ClaimsRestore(q, ids, front);
      ClaimsOne(cs, q[last].id);
      var z := if Claims(front, q[last].id) then q else cut;
      if i :| 0 <= i < |q| && q[i].id == c.id {
        if i == last {
          ClaimPlaces(cut, ids, last, c);
          assert cut[last := PartClaimed(cut[last], c)] == q;
        } else {
          ClosesIff(q, i);
          if Walk(q, i) < 0 {
            FailsInCut(q, ids, i);
          }
          assert z[i] == q[i] && q[i].id != q[last].id;
          ClaimedStill(z, ids, i, c);
        }
      } else {
        SparseFile(z, ids);
        NoSlotBefore(Render(z, "\n"), z, ids, c);
      }
    }
  }

  lemma NothingClaimed(id: string)
    ensures !Claims([], id)
  {
  }

  /** With no walk that ends, a claim finds nothing. */
  lemma {:induction false} ClaimsFindNone(q: seq<Part>, ids: seq<string>, cs: seq<Claim>)
    requires GoodIds(ids) && TextParts(q, ids) && FreeClaims(cs, ids) && Held(q, cs)
    requires forall j :: 0 <= j < |q| ==> Walk(q, j) < 0
    ensures AllClaimed(Render(q, "\n"), cs) == Render(q, "\n")
  {
    hide Balanced, Render, Walk, Claimed, TextParts, FreeClaim, GoodIds;
    if cs != [] {
      var front, c := cs[..|cs| - 1], cs[|cs| - 1];
      NotClaimedBefore(cs, ids);
      assert Held(q, front);
      ClaimsFindNone(q, ids, front);
      if i :| 0 <= i < |q| && q[i].id == c.id {
        ClaimedStill(q, ids, i, c);
      } else {
        SparseFile(q, ids);
        NoSlotBefore(Render(q, "\n"), q, ids, c);
      }
    }
  }

  lemma IfSteady(q: seq<Part>, ids: seq<string>, cs: seq<Claim>)
    requires PatchedFile(q, ids, cs) && Steady(q)
    ensures AllClaimed(Stripped(Render(q, "\n"), ids), cs) == Render(q, "\n")
  {
    hide Render, Stripped, LastSlotEnd, Walk, BodyStart, Start, AllClaimed, TextParts, GoodIds, FreeClaims, Held, Balanced, Block;
    var y, last := Render(q, "\n"), |q| - 1;
    var e := LastSlotEnd(y, ids);
    LastEndIsSlot(q, ids);
    StripShape(y, ids);
    if Walk(q, last) < 0 {
      ClaimsFindNone(q, ids, cs);
    } else {
      forall j | 0 <= j < last && Walk(q, j) >= 0
        ensures BodyStart(q, j) + Walk(q, j) < BodyStart(q, last) + Walk(q, last)
      {
        BodyAfterStart(q, ids, j);
        BodyAfterStart(q, ids, last);
        StartsGrow(q, j, last);
      }
      LastWalkStops(q);
      CutLastIs(q, ids);
      ClaimsRestore(q, ids, cs);
      if !Claims(cs, q[last].id) {
        ClosesIff(q, last);
        CutAtOwn(q);
      }
    }
  }

  lemma CutAtOwn(q: seq<Part>)
    requires q != [] && Closes(q, |q| - 1)
    ensures CutLast(q) == q
  {
    var p := q[|q| - 1];
    assert p.body[..|p.body|] == p.body;
  }

  // ---------- the whole patch ----------

  lemma {:induction false} AllClaimedConcat(s: string, a: seq<Claim>, b: seq<Claim>)
    ensures AllClaimed(s, a + b) == AllClaimed(AllClaimed(s, a), b)
  {
    hide Claimed;
    if b == [] {
      assert a + b == a;
    } else {
      AllClaimedConcat(s, a, b[..|b| - 1]);
      assert (a + b)[..|a + b| - 1] == a + b[..|b| - 1];
    }
  }

  lemma {:induction false} PatchedByClaims(s: string, ps: seq<Plugin>)
    requires forall i :: 0 <= i < |ps| ==> ps[i].standalone == None
    ensures Patched(s, ps) == AllClaimed(s, ClaimsOf(ps))
  {
    hide Claimed;
    if ps != [] {
      PatchedByClaims(s, ps[..|ps| - 1]);
      AllClaimedConcat(s, ClaimsOf(ps[..|ps| - 1]), ps[|ps| - 1].claims);
    }
  }

  /** Plugins whose claims are to different slots and that append nothing. */
  ghost predicate FreePlugins(ps: seq<Plugin>, ids: seq<string>) {
    FreeClaims(ClaimsOf(ps), ids) && forall i :: 0 <= i < |ps| ==> ps[i].standalone == None
  }

  /**
    For such plugins, with any fragments that declare no slot: patching a well-formed file twice is patching it once exactly if the patched
    file is steady.
   */
  lemma ClaimsIdempotentIff(parts: seq<Part>, tail: string, ids: seq<string>, ps: seq<Plugin>)
    requires GoodIds(ids) && GoodParts(parts, ids) && FreeOf(tail, ids) && parts != []
    requires FreePlugins(ps, ids)
    ensures var q, once := PartsAfter(parts, ClaimsOf(ps)), PatchCustom(Render(parts, tail), ids, ps);
            && once == Render(q, "\n")
            && (PatchCustom(once, ids, ps) == once <==> Steady(q))
  {
    hide Render, Stripped, Patched, AllClaimed, ClaimsOf, PartsAfter, Steady, Held, FreeClaims, TextParts, Claims, Balanced;
    var cs := ClaimsOf(ps);
    var q := PartsAfter(parts, cs);
    StrippedIs(parts, tail, ids);
    ClaimsOnce(parts, ids, cs);
    HeldAfter(parts, ids, cs);
    PatchedByClaims(Render(parts, "\n"), ps);
    PatchedByClaims(Stripped(Render(q, "\n"), ids), ps);
    assert PatchedFile(q, ids, cs);
    if Steady(q) {
      IfSteady(q, ids, cs);
    } else if AllClaimed(Stripped(Render(q, "\n"), ids), cs) == Render(q, "\n") {
      OnlyIfSteady(q, ids, cs);
    }
  }

  /** Two slots, and a fragment with a closing brace too many for the first: each patch leaves more behind. */
  lemma UnbalancedFragmentRepeats()
    ensures exists parts: seq<Part>, tail, ids, ps ::
              && GoodIds(ids) && GoodParts(parts, ids) && FreeOf(tail, ids) && parts != []
              && FreePlugins(ps, ids)
              && var once := PatchCustom(Render(parts, tail), ids, ps);
                 PatchCustom(once, ids, ps) != once
  {
    hide PatchCustom, Render, Steady, Key;
    var a, b, c := Part("", "A", "0x1", ""), Part("", "B", "0x2", ""), Claim("0x1", "Mine", "}");
    var parts, ids, ps := [a, b], ["0x1", "0x2"], [Plugin([c], None)];
    assert Word("0x1") && Word("0x2") && Word("A") && Word("B") && Word("Mine");
    forall id | id in ids
      ensures Free("", Key(id)) && Free("\n", Key(id)) && Free("}", Key(id))
    {
      ShortFree("", id);
      ShortFree("\n", id);
      ShortFree("}", id);
    }
    assert "0x1"[2] != "0x2"[2];
    assert TextPart(a, ids) && TextPart(b, ids) && Balanced("");
    assert ps[..0] == [] && [] + [c] == [c] && ClaimsOf(ps) == [c];
    ClaimsIdempotentIff(parts, "\n", ids, ps);
    ExtraBraceIsUnsteady(parts, c);
  }

  lemma ExtraBraceIsUnsteady(parts: seq<Part>, c: Claim)
    requires |parts| == 2 && parts[0].id == c.id && c.fragment == "}"
    ensures !Steady(PartsAfter(parts, [c]))
  {
    hide Render;
    var q := PartsAfter(parts, [c]);
    assert [c][..0] == [] && PartAfter(parts[0], []) == parts[0];
    assert q[0] == PartAfter(parts[0], [c]) == PartClaimed(parts[0], c);
    var walk := Body(c) + ("}" + Render(q[1..], "\n"));
    assert walk[0] == '\n' && walk[1] == '}' && walk[1..][0] == '}';
    assert CloseBrace(walk[1..], 1) == 1 && CloseBrace(walk, 1) == 2;
    assert Walk(q, 0) == 2 && !Closes(q, 0);
  }
}
