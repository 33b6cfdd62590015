/**
  The boot-time patch of the reserved schema structs: each claimed slot's struct is found by its
  identifier and a brace walk, and replaced in the text; supporting schemas are appended.
 */
module CustomSchema {
  import opened Text
  import opened Wrappers

  // ---------- the search and the patch, on text ----------

  const STRUCT := "struct "

  datatype StructMatch = StructMatch(start: nat, end: nat)

  predicate WordChar(c: char) {
    'a' <= c <= 'z' || 'A' <= c <= 'Z' || '0' <= c <= '9' || c == '_'
  }

  /** The part of a declaration behind the struct's name. */
  function Key(id: string): string {
    " @" + id + " {"
  }

  function WordEnd(s: string, i: nat): (r: nat)
    requires i <= |s|
    ensures i <= r <= |s|
    decreases |s| - i
  {
    if i < |s| && WordChar(s[i]) then WordEnd(s, i + 1) else i
  }

  /** A declaration of the struct with this identifier, under any name. */
  predicate DeclAt(s: string, p: nat, id: string) {
    && Occurs(s, p, STRUCT)
    && var q := WordEnd(s, p + |STRUCT|);
       q > p + |STRUCT| && Occurs(s, q, Key(id))
  }

  function FindDecl(s: string, p: nat, id: string): (r: int)
    requires p <= |s|
    ensures r < 0 || (p <= r < |s| && DeclAt(s, r, id))
    decreases |s| - p
  {
    if p == |s| then -1 else if DeclAt(s, p, id) then p else FindDecl(s, p + 1, id)
  }

  /** How far the brace that closes `depth` open ones is, just past it. */
  function CloseBrace(t: string, depth: int): (r: int)
    ensures r <= |t|
  {
    if t == "" then -1
    else
      var d := if t[0] == '{' then depth + 1 else if t[0] == '}' then depth - 1 else depth;
      if t[0] == '}' && d == 0 then 1
      else
        var r := CloseBrace(t[1..], d);
        if r < 0 then r else r + 1
  }

  function OpenBrace(s: string, p: nat, id: string): (r: nat)
    requires p <= |s| && DeclAt(s, p, id)
    ensures r < |s|
  {
    WordEnd(s, p + |STRUCT|) + |Key(id)| - 1
  }

  function Match(s: string, id: string): (m: Option<StructMatch>)
    ensures m.Some? ==> m.value.start < m.value.end <= |s|
  {
    var p := FindDecl(s, 0, id);
    if p < 0 then None
    else
      var open := OpenBrace(s, p, id);
      var r := CloseBrace(s[open..], 0);
      if r < 0 then None else Some(StructMatch(p, open + r))
  }

  /** One slot of a plugin's manifest, its fragment read and stripped. */
  datatype Claim = Claim(id: string, name: string, fragment: string)

  /** The slots in order, and the standalone schema appended after them. */
  datatype Plugin = Plugin(claims: seq<Claim>, standalone: Option<string>)

  function Replacement(c: Claim): string {
    STRUCT + (c.name + (Key(c.id) + (("\n" + c.fragment + "\n") + "}")))
  }

  function Claimed(s: string, c: Claim): string {
    var m := Match(s, c.id);
    if m.None? then s
    else s[..m.value.start] + (Replacement(c) + s[m.value.end..])
  }

  function AllClaimed(s: string, cs: seq<Claim>): string {
    if cs == [] then s else Claimed(AllClaimed(s, cs[..|cs| - 1]), cs[|cs| - 1])
  }

  predicate Space(c: char) {
    c == ' ' || c == '\n' || c == '\t' || c == '\r' || c == '\U{0b}' || c == '\U{0c}'
  }

  function Rstrip(s: string): string {
    if s != "" && Space(s[|s| - 1]) then Rstrip(s[..|s| - 1]) else s
  }

  function Appended(s: string, standalone: Option<string>): string {
    if standalone.None? then s else Rstrip(s) + ("\n\n" + (standalone.value + "\n"))
  }

  function Patched(s: string, plugins: seq<Plugin>): string {
    if plugins == [] then s
    else
      var p := plugins[|plugins| - 1];
      Appended(AllClaimed(Patched(s, plugins[..|plugins| - 1]), p.claims), p.standalone)
  }

  function LastSlotEnd(s: string, ids: seq<string>): (r: nat)
    ensures r <= |s|
  {
    if ids == [] then 0
    else
      var r, m := LastSlotEnd(s, ids[..|ids| - 1]), Match(s, ids[|ids| - 1]);
      if m.Some? && m.value.end > r then m.value.end else r
  }

  /** What follows the last slot goes. */
  function Stripped(s: string, ids: seq<string>): string {
    var last := LastSlotEnd(s, ids);
    if last > 0 then Rstrip(s[..last]) + "\n" else s
  }

  function PatchCustom(s: string, ids: seq<string>, plugins: seq<Plugin>): string {
    Patched(Stripped(s, ids), plugins)
  }

  // ---------- well-formed files ----------

  /** A slot's struct, and the text between it and the struct before. */
  datatype Part = Part(before: string, name: string, id: string, body: string)

  function Render(parts: seq<Part>, tail: string): string {
    if parts == [] then tail else parts[0].before + (Block(parts[0]) + Render(parts[1..], tail))
  }

  function Block(p: Part): string {
    STRUCT + (p.name + (Key(p.id) + (p.body + "}")))
  }

  ghost predicate Word(w: string) {
    w != "" && forall i :: 0 <= i < |w| ==> WordChar(w[i])
  }

  /** No declaration of the slot ends in this text. */
  ghost predicate Free(t: string, k: string) {
    forall q :: !Occurs(t, q, k)
  }

  ghost predicate FreeOf(t: string, ids: seq<string>) {
    forall id :: id in ids ==> Free(t, Key(id))
  }

  /** The depth after a text, from `d` open braces; 0 once all have been closed. */
  function Depth(t: string, d: nat): nat {
    if d == 0 || t == "" then d
    else Depth(t[1..], if t[0] == '{' then d + 1 else if t[0] == '}' then d - 1 else d)
  }

  /** The braces of the text pair up within it. */
  predicate Balanced(t: string) {
    Depth(t, 1) == 1
  }

  /** A slot of a known identifier whose text declares no other. */
  ghost predicate TextPart(p: Part, ids: seq<string>) {
    p.id in ids && Word(p.name) && FreeOf(p.before, ids) && FreeOf(p.body, ids)
  }

  ghost predicate TextParts(parts: seq<Part>, ids: seq<string>) {
    && (forall i :: 0 <= i < |parts| ==> TextPart(parts[i], ids))
    && (forall i, j :: 0 <= i < j < |parts| ==> parts[i].id != parts[j].id)
  }

  ghost predicate GoodParts(parts: seq<Part>, ids: seq<string>) {
    TextParts(parts, ids) && forall i :: 0 <= i < |parts| ==> Balanced(parts[i].body)
  }

  ghost predicate GoodIds(ids: seq<string>) {
    forall id :: id in ids ==> Word(id)
  }

  // ---------- the brace walk ----------

  /** Walking over a text moves on by it, at the depth it leaves. */
  lemma {:induction false} CloseBraceThrough(t: string, rest: string, d: nat)
    requires d >= 1 && Depth(t, d) >= 1 && CloseBrace(rest, Depth(t, d)) >= 0
    ensures CloseBrace(t + rest, d) == |t| + CloseBrace(rest, Depth(t, d))
  {
    if t == "" {
      assert t + rest == rest;
    } else {
      var e := if t[0] == '{' then d + 1 else if t[0] == '}' then d - 1 else d;
      assert Depth(t, d) == Depth(t[1..], e);
      CloseBraceThrough(t[1..], rest, e);
      assert (t + rest)[1..] == t[1..] + rest;
    }
  }

  lemma BalancedBody(body: string, rest: string)
    requires Balanced(body)
    ensures CloseBrace(body + ("}" + rest), 1) == |body| + 1
  {
    var close := "}" + rest;
    assert CloseBrace(close, 1) == 1;
    CloseBraceThrough(body, close, 1);
  }

  /** From an opening brace the walk returns exactly its balanced block. */
  lemma BalancedBlock(body: string, rest: string)
    requires Balanced(body)
    ensures CloseBrace("{" + (body + ("}" + rest)), 0) == |body| + 2
  {
    BalancedBody(body, rest);
    assert ("{" + (body + ("}" + rest)))[1..] == body + ("}" + rest);
  }

  /** In every text: the walk ends at the first place where all open braces are closed, if any. */
  lemma {:induction false} CloseBraceIsFirst(t: string, d: nat, n: nat)
    requires d >= 1 && n <= |t|
    ensures var r := CloseBrace(t, d);
            && (r >= 0 && n < r ==> Depth(t[..n], d) > 0)
            && (r >= 0 ==> 1 <= r <= |t| && Depth(t[..r], d) == 0)
            && (r < 0 ==> Depth(t[..n], d) > 0)
  {
    if t != "" {
      var e := if t[0] == '{' then d + 1 else if t[0] == '}' then d - 1 else d;
      var r := CloseBrace(t, d);
      assert n > 0 ==> t[..n][1..] == t[1..][..n - 1];
      assert r > 0 ==> t[..r][1..] == t[1..][..r - 1];
      if e > 0 {
        CloseBraceIsFirst(t[1..], e, if n > 0 then n - 1 else 0);
      } else {
        assert t[..1][1..] == "";
      }
    }
  }

  // ---------- where a slot's key occurs ----------

  /** No occurrence of `k` begins within the first part of `t + rest`. */
  ghost predicate NoneBegins(t: string, rest: string, k: string) {
    forall q :: 0 <= q < |t| ==> !Occurs(t + rest, q, k)
  }

  ghost predicate OnlyAt(s: string, k: string, q0: int) {
    forall q :: Occurs(s, q, k) <==> q == q0
  }

  lemma OccursLater(t: string, rest: string, q: int, k: string)
    requires q >= |t|
    ensures Occurs(t + rest, q, k) <==> Occurs(rest, q - |t|, k)
  {
    if q + |k| <= |t + rest| {
      assert (t + rest)[q..q + |k|] == rest[q - |t|..q - |t| + |k|];
    }
  }

  lemma OccursEarlier(t: string, rest: string, q: int, k: string)
    requires q + |k| <= |t|
    ensures Occurs(t + rest, q, k) <==> Occurs(t, q, k)
  {
    if q >= 0 {
      assert (t + rest)[q..q + |k|] == t[q..q + |k|];
    }
  }

  lemma OnlyAfter(t: string, rest: string, k: string, q0: int)
    requires NoneBegins(t, rest, k) && OnlyAt(rest, k, q0)
    ensures OnlyAt(t + rest, k, |t| + q0)
  {
    forall q
      ensures Occurs(t + rest, q, k) <==> q == |t| + q0
    {
      assert Occurs(rest, q0, k);
      if q >= |t| {
        OccursLater(t, rest, q, k);
      }
    }
  }

  lemma FreeAfter(t: string, rest: string, k: string)
    requires NoneBegins(t, rest, k) && Free(rest, k)
    ensures Free(t + rest, k)
  {
    forall q
      ensures !Occurs(t + rest, q, k)
    {
      if q >= |t| {
        OccursLater(t, rest, q, k);
      }
    }
  }

  /** An occurrence, letter by letter. */
  lemma OccursLetter(s: string, q: int, k: string, j: nat)
    requires Occurs(s, q, k) && j < |k|
    ensures s[q + j] == k[j]
  {
    assert s[q..q + |k|][j] == s[q + j];
  }

  /** One letter that differs rules an occurrence out. */
  lemma DiffersAt(s: string, q: nat, k: string, j: nat)
    requires j < |k| && (q + j < |s| ==> s[q + j] != k[j])
    ensures !Occurs(s, q, k)
  {
    if Occurs(s, q, k) {
      OccursLetter(s, q, k, j);
    }
  }

  lemma KeyShape(id: string)
    requires Word(id)
    ensures var k, n := Key(id), |id|;
            && |k| == n + 4 && k[0] == ' ' && k[1] == '@' && k[n + 2] == ' ' && k[n + 3] == '{'
            && forall j :: 2 <= j < n + 2 ==> k[j] == id[j - 2] && WordChar(k[j])
  {
  }

  /** Two keys agree only if the identifiers do. */
  lemma KeyPrefix(a: string, b: string)
    requires Word(a) && Word(b) && |a| <= |b| && Key(a) == Key(b)[..|Key(a)|]
    ensures a == b
  {
    KeyShape(a);
    KeyShape(b);
    assert Key(b)[..|Key(a)|][|a| + 2] == Key(b)[|a| + 2] == ' ';
    assert |a| == |b|;
    forall j | 0 <= j < |a|
      ensures a[j] == b[j]
    {
      assert Key(a)[j + 2] == Key(b)[j + 2];
    }
  }

  ghost predicate StartsBlock(rest: string) {
    |rest| > |STRUCT| && rest[..|STRUCT|] == STRUCT && WordChar(rest[|STRUCT|])
  }

  /** A key cannot begin in the text before a block and end in the block. */
  lemma NoneBeginsBefore(t: string, rest: string, id: string)
    requires Word(id) && Free(t, Key(id)) && StartsBlock(rest)
    ensures NoneBegins(t, rest, Key(id))
  {
    var k, n, s := Key(id), |id|, t + rest;
    forall q | 0 <= q < |t|
      ensures !Occurs(s, q, k)
    {
      if Occurs(s, q, k) {
        KeyShape(id);
        if q + |k| <= |t| {
          OccursEarlier(t, rest, q, k);
        } else {
          var c := |t| - q;
          KeyAcross(t, rest, id, q, c);
        }
      }
    }
  }

  lemma StructLetters()
    ensures |STRUCT| == 7 && STRUCT[0] == 's' && STRUCT[6] == ' '
    ensures forall j :: 0 <= j < 6 ==> WordChar(STRUCT[j])
  {
  }

  /**
    Where a key crosses into a block, the keyword's first letter falls in its identifier, so the
    keyword's space is the key's last, and the brace would have to be the first letter of the name.
   */
  lemma KeyAcross(t: string, rest: string, id: string, q: int, c: nat)
    requires Word(id) && StartsBlock(rest)
    requires 0 <= q < |t| && c == |t| - q && c < |Key(id)|
    ensures !Occurs(t + rest, q, Key(id))
  {
    var k, n := Key(id), |id|;
    KeyShape(id);
    StructLetters();
    forall j | 0 <= j < 7
      ensures rest[j] == STRUCT[j]
    {
      assert rest[..7][j] == rest[j];
    }
    // the letter that differs
    if c < 2 || c >= n + 2 {
      DiffersAt(t + rest, q, k, c);
    } else if c + 6 < n + 2 {
      DiffersAt(t + rest, q, k, c + 6);
    } else if c + 6 > n + 2 {
      DiffersAt(t + rest, q, k, n + 2);
    } else {
      DiffersAt(t + rest, q, k, n + 3);
    }
  }

  /** No key begins in the keyword and name of a declaration. */
  lemma NoneBeginsHead(name: string, rest: string, id: string)
    requires Word(id) && Word(name) && rest != "" && rest[0] == ' '
    ensures NoneBegins(STRUCT + name, rest, Key(id))
  {
    var t, k := STRUCT + name, Key(id);
    KeyShape(id);
    StructLetters();
    forall q | 0 <= q < |t|
      ensures !Occurs(t + rest, q, k)
    {
      assert (t + rest)[q + 1] == if q + 1 < 7 then STRUCT[q + 1] else if q + 1 < |t| then name[q + 1 - 7] else rest[0];
      DiffersAt(t + rest, q, k, 1);
    }
  }

  /** Within a key no other key begins, and only itself at its start. */
  lemma NoneBeginsKey(other: string, rest: string, id: string)
    requires Word(id) && Word(other)
    ensures forall q :: 0 < q < |Key(other)| ==> !Occurs(Key(other) + rest, q, Key(id))
    ensures id != other ==> NoneBegins(Key(other), rest, Key(id))
  {
    var t, k := Key(other), Key(id);
    KeyShape(id);
    KeyShape(other);
    forall q | 0 <= q < |t| && (q > 0 || id != other)
      ensures !Occurs(t + rest, q, k)
    {
      if q == 0 {
        if Occurs(t + rest, q, k) {
          SameKey(other, rest, id);
        }
      } else if q + 1 < |t| {
        assert (t + rest)[q + 1] == t[q + 1];
        DiffersAt(t + rest, q, k, 1);
      } else {
        assert (t + rest)[q] == t[q];
        DiffersAt(t + rest, q, k, 0);
      }
    }
  }

  lemma SameKey(other: string, rest: string, id: string)
    requires Word(id) && Word(other) && Occurs(Key(other) + rest, 0, Key(id))
    ensures id == other
  {
    var t, k := Key(other), Key(id);
    assert (t + rest)[0..|k|] == k;
    if |k| <= |t| {
      assert t[..|k|] == (t + rest)[..|k|];
      KeyPrefix(id, other);
    } else {
      assert k[..|t|] == (t + rest)[..|t|] == t;
      KeyPrefix(other, id);
    }
  }

  /** No key begins in a body or its closing brace. */
  lemma NoneBeginsBody(body: string, rest: string, id: string)
    requires Word(id) && Free(body, Key(id))
    ensures NoneBegins(body + "}", rest, Key(id))
  {
    var t, k := body + "}", Key(id);
    KeyShape(id);
    assert (t + rest)[|body|] == '}';
    forall q | 0 <= q < |t|
      ensures !Occurs(t + rest, q, k)
    {
      if q + |k| <= |body| {
        assert t + rest == body + ("}" + rest);
        OccursEarlier(body, "}" + rest, q, k);
      } else {
        DiffersAt(t + rest, q, k, |body| - q);
      }
    }
  }

  lemma NoneBeginsBoth(a: string, b: string, rest: string, k: string)
    requires NoneBegins(a, b + rest, k) && NoneBegins(b, rest, k)
    ensures NoneBegins(a + b, rest, k)
  {
    assert a + b + rest == a + (b + rest);
    forall q | 0 <= q < |a + b|
      ensures !Occurs(a + b + rest, q, k)
    {
      if q >= |a| {
        OccursLater(a, b + rest, q, k);
      }
    }
  }

  lemma BlockOn(p: Part, rest: string)
    ensures Block(p) + rest == (STRUCT + p.name) + (Key(p.id) + ((p.body + "}") + rest))
    ensures |Block(p)| == |STRUCT + p.name| + |Key(p.id)| + |p.body| + 1
  {
    var r := (p.body + "}") + rest;
    assert (Key(p.id) + (p.body + "}")) + rest == Key(p.id) + r;
    assert (p.name + (Key(p.id) + (p.body + "}"))) + rest == p.name + (Key(p.id) + r);
    assert Block(p) + rest == STRUCT + (p.name + (Key(p.id) + r));
  }

  lemma BlockStarts(p: Part, rest: string)
    requires Word(p.name)
    ensures StartsBlock(Block(p) + rest)
  {
    var s := Block(p) + rest;
    assert s[..|STRUCT|] == STRUCT;
    assert s[|STRUCT|] == p.name[0];
  }

  /** No key of another slot begins in a part. */
  lemma NoneBeginsPart(p: Part, rest: string, id: string)
    requires Word(id) && Word(p.id) && Word(p.name) && p.id != id
    requires Free(p.before, Key(id)) && Free(p.body, Key(id))
    ensures NoneBegins(p.before, Block(p) + rest, Key(id)) && NoneBegins(Block(p), rest, Key(id))
  {
    hide Key;
    var k, body := Key(id), p.body + "}";
    BlockStarts(p, rest);
    NoneBeginsBefore(p.before, Block(p) + rest, id);
    var r := body + rest;
    NoneBeginsBody(p.body, rest, id);
    NoneBeginsKey(p.id, r, id);
    KeyShape(p.id);
    NoneBeginsHead(p.name, Key(p.id) + r, id);
    NoneBeginsBoth(Key(p.id), body, rest, k);
    assert (Key(p.id) + body) + rest == Key(p.id) + r;
    NoneBeginsBoth(STRUCT + p.name, Key(p.id) + body, rest, k);
    assert STRUCT + p.name + (Key(p.id) + body) == Block(p);
  }

  // ---------- the match in a well-formed file ----------

  lemma {:induction false} RenderConcat(a: seq<Part>, b: seq<Part>, tail: string)
    ensures Render(a + b, tail) == Render(a, Render(b, tail))
  {
    if a == [] {
      assert a + b == b;
    } else {
      RenderConcat(a[1..], b, tail);
      assert (a + b)[1..] == a[1..] + b;
    }
  }

  lemma {:induction false} RenderAppend(a: seq<Part>, t: string, u: string)
    ensures Render(a, t + u) == Render(a, t) + u
  {
    if a != [] {
      RenderAppend(a[1..], t, u);
      var p, r := a[0], Render(a[1..], t);
      assert p.before + (Block(p) + (r + u)) == (p.before + (Block(p) + r)) + u;
    }
  }

  /** A file around one of its slots. */
  lemma RenderSplit(parts: seq<Part>, tail: string, i: nat)
    requires i < |parts|
    ensures Render(parts, tail)
            == Render(parts[..i], parts[i].before) + (Block(parts[i]) + Render(parts[i + 1..], tail))
  {
    hide Block;
    var p, r := parts[i], Render(parts[i + 1..], tail);
    assert parts == parts[..i] + ([p] + parts[i + 1..]);
    RenderConcat(parts[..i], [p] + parts[i + 1..], tail);
    assert ([p] + parts[i + 1..])[1..] == parts[i + 1..];
    RenderAppend(parts[..i], p.before, Block(p) + r);
  }

  /** The parts before a slot add no occurrence of its key. */
  lemma {:induction false} OnlyThrough(parts: seq<Part>, rest: string, ids: seq<string>, id: string, q0: int)
    requires GoodIds(ids) && TextParts(parts, ids) && id in ids && OnlyAt(rest, Key(id), q0)
    requires forall i :: 0 <= i < |parts| ==> parts[i].id != id
    ensures |Render(parts, rest)| >= |rest| && OnlyAt(Render(parts, rest), Key(id), |Render(parts, rest)| - |rest| + q0)
  {
    hide Key, Block, Balanced, Occurs;
    if parts != [] {
      var p, r := parts[0], Render(parts[1..], rest);
      OnlyThrough(parts[1..], rest, ids, id, q0);
      assert TextPart(p, ids);
      NoneBeginsPart(p, r, id);
      OnlyAfter(Block(p), r, Key(id), |r| - |rest| + q0);
      OnlyAfter(p.before, Block(p) + r, Key(id), |Block(p)| + (|r| - |rest| + q0));
    }
  }

  lemma {:induction false} FreeThrough(parts: seq<Part>, tail: string, ids: seq<string>, id: string)
    requires GoodIds(ids) && TextParts(parts, ids) && id in ids && Free(tail, Key(id))
    requires forall i :: 0 <= i < |parts| ==> parts[i].id != id
    ensures Free(Render(parts, tail), Key(id))
  {
    hide Key, Block, Balanced, Occurs;
    if parts != [] {
      var p, r := parts[0], Render(parts[1..], tail);
      FreeThrough(parts[1..], tail, ids, id);
      assert TextPart(p, ids);
      NoneBeginsPart(p, r, id);
      FreeAfter(Block(p), r, Key(id));
      FreeAfter(p.before, Block(p) + r, Key(id));
    }
  }

  /** In its own block the key occurs once, behind the name. */
  lemma OnlyInBlock(p: Part, rest: string)
    requires Word(p.id) && Word(p.name) && Free(p.body, Key(p.id)) && Free(rest, Key(p.id))
    ensures OnlyAt(Block(p) + rest, Key(p.id), |STRUCT| + |p.name|)
  {
    hide Block, Key;
    var k, r := Key(p.id), (p.body + "}") + rest;
    BlockOn(p, rest);
    KeyShape(p.id);
    NoneBeginsBody(p.body, rest, p.id);
    FreeAfter(p.body + "}", rest, k);
    KeyOnce(p.id, r);
    NoneBeginsHead(p.name, k + r, p.id);
    OnlyAfter(STRUCT + p.name, k + r, k, 0);
  }

  lemma KeyOnce(id: string, rest: string)
    requires Word(id) && Free(rest, Key(id))
    ensures OnlyAt(Key(id) + rest, Key(id), 0)
  {
    hide Key;
    var k := Key(id);
    NoneBeginsKey(id, rest, id);
    forall q
      ensures Occurs(k + rest, q, k) <==> q == 0
    {
      if q >= |k| {
        OccursLater(k, rest, q, k);
      } else if q == 0 {
        assert (k + rest)[0..|k|] == k;
      }
    }
  }

  lemma WordEndIs(s: string, i: nat, q: nat)
    requires i <= q < |s| && !WordChar(s[q]) && forall j :: i <= j < q ==> WordChar(s[j])
    ensures WordEnd(s, i) == q
    decreases q - i
  {
    if i < q {
      WordEndIs(s, i + 1, q);
    }
  }

  lemma {:induction false} WordEndWords(s: string, i: nat)
    requires i <= |s|
    ensures forall j :: i <= j < WordEnd(s, i) ==> WordChar(s[j])
    decreases |s| - i
  {
    if i < |s| && WordChar(s[i]) {
      WordEndWords(s, i + 1);
    }
  }

  lemma {:induction false} FindDeclIs(s: string, p: nat, id: string, p0: nat)
    requires p <= p0 < |s| && DeclAt(s, p0, id) && forall q :: p <= q < p0 ==> !DeclAt(s, q, id)
    ensures FindDecl(s, p, id) == p0
    decreases p0 - p
  {
    hide DeclAt;
    if p < p0 {
      FindDeclIs(s, p + 1, id, p0);
    }
  }

  /** Where the key occurs once, behind a keyword and a name, the search finds that declaration. */
  lemma FindUnique(s: string, id: string, p0: nat, q0: nat)
    requires Word(id) && OnlyAt(s, Key(id), q0) && Occurs(s, p0, STRUCT)
    requires p0 + |STRUCT| < q0 < |s| && !WordChar(s[q0]) && forall j :: p0 + |STRUCT| <= j < q0 ==> WordChar(s[j])
    ensures FindDecl(s, 0, id) == p0 && WordEnd(s, p0 + |STRUCT|) == q0
  {
    hide Key;
    StructLetters();
    WordEndIs(s, p0 + |STRUCT|, q0);
    assert Occurs(s, q0, Key(id));
    forall p | 0 <= p < p0
      ensures !DeclAt(s, p, id)
    {
      if p + 7 <= |s| {
        OccursLetter(s, p0, STRUCT, 6);
        WordEndWords(s, p + 7);
      }
    }
    FindDeclIs(s, 0, id, p0);
  }

  lemma {:induction false} FindNone(s: string, p: nat, id: string)
    requires p <= |s| && Free(s, Key(id))
    ensures FindDecl(s, p, id) < 0
    decreases |s| - p
  {
    if p < |s| {
      FindNone(s, p + 1, id);
    }
  }

  lemma MatchNone(parts: seq<Part>, tail: string, ids: seq<string>, id: string)
    requires GoodIds(ids) && TextParts(parts, ids) && FreeOf(tail, ids) && id in ids
    requires forall i :: 0 <= i < |parts| ==> parts[i].id != id
    ensures Match(Render(parts, tail), id).None?
  {
    hide Key;
    FreeThrough(parts, tail, ids, id);
    FindNone(Render(parts, tail), 0, id);
  }

  /** In a whole file a slot's key occurs once, in its declaration. */
  lemma KeyAtSlot(parts: seq<Part>, tail: string, ids: seq<string>, i: nat)
    requires GoodIds(ids) && TextParts(parts, ids) && FreeOf(tail, ids) && i < |parts|
    ensures var p, left := parts[i], Render(parts[..i], parts[i].before);
            OnlyAt(left + (Block(p) + Render(parts[i + 1..], tail)), Key(p.id), |left| + |STRUCT| + |p.name|)
  {
    hide Key, Block, Occurs, Free, OnlyAt;
    var p := parts[i];
    var right := Render(parts[i + 1..], tail);
    assert TextPart(p, ids);
    FreeThrough(parts[i + 1..], tail, ids, p.id);
    OnlyInBlock(p, right);
    BlockStarts(p, right);
    NoneBeginsBefore(p.before, Block(p) + right, p.id);
    OnlyAfter(p.before, Block(p) + right, Key(p.id), |STRUCT| + |p.name|);
    OnlyThrough(parts[..i], p.before + (Block(p) + right), ids, p.id, |p.before| + (|STRUCT| + |p.name|));
    RenderAppend(parts[..i], p.before, Block(p) + right);
  }

  /** The match of a slot's identifier starts at its declaration and ends where the walk over its body does. */
  lemma MatchWalks(parts: seq<Part>, tail: string, ids: seq<string>, i: nat)
    requires GoodIds(ids) && TextParts(parts, ids) && FreeOf(tail, ids) && i < |parts|
    ensures Match(Render(parts, tail), parts[i].id)
            == WalkFrom(Render(parts[..i], parts[i].before), parts[i], Render(parts[i + 1..], tail))
  {
    hide Key, Block, WalkFrom, OnlyAt, Match, Render, FreeOf;
    assert TextPart(parts[i], ids);
    KeyAtSlot(parts, tail, ids, i);
    RenderSplit(parts, tail, i);
    MatchAt(Render(parts[..i], parts[i].before), parts[i], Render(parts[i + 1..], tail));
  }

  /** The match at a slot with `left` before and `right` behind it. */
  function WalkFrom(left: string, p: Part, right: string): Option<StructMatch> {
    var r := CloseBrace(p.body + ("}" + right), 1);
    if r < 0 then None
    else Some(StructMatch(|left|, |left| + |STRUCT| + |p.name| + |Key(p.id)| + r))
  }

  lemma MatchAt(left: string, p: Part, right: string)
    requires Word(p.id) && Word(p.name)
    requires OnlyAt(left + (Block(p) + right), Key(p.id), |left| + |STRUCT| + |p.name|)
    ensures Match(left + (Block(p) + right), p.id) == WalkFrom(left, p, right)
  {
    hide Occurs;
    var s, p0 := left + (Block(p) + right), |left|;
    var q0 := p0 + |STRUCT| + |p.name|;
    BlockOn(p, right);
    KeyShape(p.id);
    Letters(left, p, right);
    FindUnique(s, p.id, p0, q0);
    FromBrace(left, STRUCT + p.name, Key(p.id), p.body, right);
    var walk := p.body + ("}" + right);
    assert ("{" + walk)[1..] == walk;
    hide Key, Block;
    assert s == left + ((STRUCT + p.name) + (Key(p.id) + ((p.body + "}") + right)));
  }

  /** The match of a slot's identifier is exactly its block. */
  lemma MatchIsBlock(parts: seq<Part>, tail: string, ids: seq<string>, i: nat)
    requires GoodIds(ids) && TextParts(parts, ids) && FreeOf(tail, ids) && i < |parts| && Balanced(parts[i].body)
    ensures var start := |Render(parts[..i], parts[i].before)|;
            Match(Render(parts, tail), parts[i].id) == Some(StructMatch(start, start + |Block(parts[i])|))
  {
    hide Key, Block, Balanced, Match;
    MatchWalks(parts, tail, ids, i);
    BalancedBody(parts[i].body, Render(parts[i + 1..], tail));
    BlockOn(parts[i], "");
  }

  lemma FromBrace(left: string, head: string, key: string, body: string, right: string)
    requires key != "" && key[|key| - 1] == '{'
    ensures var s := left + (head + (key + ((body + "}") + right)));
            s[|left| + |head| + |key| - 1..] == "{" + (body + ("}" + right))
  {
    var s := left + (head + (key + ((body + "}") + right)));
    assert s[|left|..] == head + (key + ((body + "}") + right));
    assert s[|left| + |head|..] == key + ((body + "}") + right);
  }

  lemma Letters(left: string, p: Part, right: string)
    requires Word(p.name) && Word(p.id)
    ensures var s, p0 := left + (Block(p) + right), |left|;
            var q0 := p0 + |STRUCT| + |p.name|;
            && q0 < |s| && Occurs(s, p0, STRUCT) && s[q0] == ' '
            && forall j :: p0 + |STRUCT| <= j < q0 ==> WordChar(s[j])
  {
    var s, p0 := left + (Block(p) + right), |left|;
    BlockOn(p, right);
    KeyShape(p.id);
    hide Key, Block;
    assert s[p0..p0 + |STRUCT|] == STRUCT;
    forall j | p0 + |STRUCT| <= j < p0 + |STRUCT| + |p.name|
      ensures WordChar(s[j])
    {
      assert s[j] == p.name[j - p0 - |STRUCT|];
    }
  }

  // ---------- the patch of a well-formed file ----------

  ghost predicate GoodClaim(c: Claim, ids: seq<string>) {
    c.id in ids && Word(c.name) && FreeOf(c.fragment, ids) && Balanced(c.fragment)
  }

  ghost predicate GoodPlugin(p: Plugin, ids: seq<string>) {
    && (forall i :: 0 <= i < |p.claims| ==> GoodClaim(p.claims[i], ids))
    && (p.standalone.Some? ==> FreeOf(p.standalone.value, ids))
  }

  ghost predicate GoodPlugins(ps: seq<Plugin>, ids: seq<string>) {
    forall i :: 0 <= i < |ps| ==> GoodPlugin(ps[i], ids)
  }

  /** The effect of a claim, and of several, on one slot: the last claim wins. */
  function PartClaimed(p: Part, c: Claim): Part {
    if p.id == c.id then p.(name := c.name, body := "\n" + c.fragment + "\n") else p
  }

  function PartAfter(p: Part, cs: seq<Claim>): Part {
    if cs == [] then p else PartClaimed(PartAfter(p, cs[..|cs| - 1]), cs[|cs| - 1])
  }

  function PartsAfter(parts: seq<Part>, cs: seq<Claim>): (r: seq<Part>)
    ensures |r| == |parts|
  {
    seq(|parts|, i requires 0 <= i < |parts| => PartAfter(parts[i], cs))
  }

  function ClaimsOf(ps: seq<Plugin>): seq<Claim> {
    if ps == [] then [] else ClaimsOf(ps[..|ps| - 1]) + ps[|ps| - 1].claims
  }

  function TailAfter(tail: string, ps: seq<Plugin>): string {
    if ps == [] then tail else Appended(TailAfter(tail, ps[..|ps| - 1]), ps[|ps| - 1].standalone)
  }

  lemma FreeJoin(a: string, b: string, id: string)
    requires Word(id) && Free(a, Key(id)) && Free(b, Key(id))
    ensures Free(a + ("\n" + b), Key(id))
  {
    var s, k := a + ("\n" + b), Key(id);
    KeyShape(id);
    assert s[|a|] == '\n' && s == (a + "\n") + b;
    forall q
      ensures !Occurs(s, q, k)
    {
      if q + |k| <= |a| {
        OccursEarlier(a, "\n" + b, q, k);
      } else if q > |a| {
        OccursLater(a + "\n", b, q, k);
      } else if q >= 0 {
        DiffersAt(s, q, k, |a| - q);
      }
    }
  }

  lemma FreeEmpty(id: string)
    requires Word(id)
    ensures Free("", Key(id))
  {
  }

  lemma FreePrefix(t: string, n: nat, k: string)
    requires n <= |t| && Free(t, k)
    ensures Free(t[..n], k)
  {
    forall q
      ensures !Occurs(t[..n], q, k)
    {
      if q + |k| <= n {
        OccursEarlier(t[..n], t[n..], q, k);
        assert t[..n] + t[n..] == t;
      }
    }
  }

  lemma {:induction false} DepthConcat(a: string, b: string, d: nat)
    ensures Depth(a + b, d) == Depth(b, Depth(a, d))
  {
    if a == "" || d == 0 {
      assert a == "" ==> a + b == b;
    } else {
      var e := if a[0] == '{' then d + 1 else if a[0] == '}' then d - 1 else d;
      DepthConcat(a[1..], b, e);
      assert (a + b)[1..] == a[1..] + b;
    }
  }

  lemma FreeBody(fragment: string, ids: seq<string>)
    requires GoodIds(ids) && FreeOf(fragment, ids)
    ensures FreeOf("\n" + fragment + "\n", ids)
  {
    var body := "\n" + fragment + "\n";
    forall id | id in ids
      ensures Free(body, Key(id))
    {
      FreeEmpty(id);
      FreeJoin(fragment, "", id);
      FreeJoin("", fragment + ("\n" + ""), id);
      assert body == "" + ("\n" + (fragment + ("\n" + "")));
    }
  }

  lemma GoodBody(c: Claim, ids: seq<string>)
    requires GoodIds(ids) && GoodClaim(c, ids)
    ensures FreeOf("\n" + c.fragment + "\n", ids) && Balanced("\n" + c.fragment + "\n")
  {
    FreeBody(c.fragment, ids);
    DepthConcat("\n" + c.fragment, "\n", 1);
    DepthConcat("\n", c.fragment, 1);
    assert Depth("\n", 1) == 1;
  }

  /** One claim, with every other slot and all text between as before. */
  lemma ClaimedIs(parts: seq<Part>, tail: string, ids: seq<string>, c: Claim)
    requires GoodIds(ids) && GoodParts(parts, ids) && FreeOf(tail, ids) && GoodClaim(c, ids)
    ensures var r := seq(|parts|, i requires 0 <= i < |parts| => PartClaimed(parts[i], c));
            GoodParts(r, ids) && Claimed(Render(parts, tail), c) == Render(r, tail)
  {
    hide Key, Block, Balanced, Occurs, Match, Render, Free;
    var r := seq(|parts|, i requires 0 <= i < |parts| => PartClaimed(parts[i], c));
    GoodBody(c, ids);
    if i :| 0 <= i < |parts| && parts[i].id == c.id {
      MatchIsBlock(parts, tail, ids, i);
      RenderSplit(parts, tail, i);
      RenderSplit(r, tail, i);
      assert r[..i] == parts[..i] && r[i + 1..] == parts[i + 1..];
      Replaced(Render(parts[..i], parts[i].before), parts[i], Render(parts[i + 1..], tail), Render(parts, tail));
      ReplacementIs(parts[i], c);
    } else {
      MatchNone(parts, tail, ids, c.id);
      assert r == parts;
    }
  }

  lemma ReplacementIs(p: Part, c: Claim)
    requires p.id == c.id
    ensures Replacement(c) == Block(PartClaimed(p, c))
  {
  }

  lemma Replaced(left: string, p: Part, right: string, s: string)
    requires s == left + (Block(p) + right)
    ensures s[..|left|] == left && |left| + |Block(p)| <= |s| && s[|left| + |Block(p)|..] == right
  {
    hide Block;
  }

  lemma {:induction false} AllClaimedIs(parts: seq<Part>, tail: string, ids: seq<string>, cs: seq<Claim>)
    requires GoodIds(ids) && GoodParts(parts, ids) && FreeOf(tail, ids)
    requires forall i :: 0 <= i < |cs| ==> GoodClaim(cs[i], ids)
    ensures GoodParts(PartsAfter(parts, cs), ids)
    ensures AllClaimed(Render(parts, tail), cs) == Render(PartsAfter(parts, cs), tail)
  {
    hide GoodParts, FreeOf, GoodClaim, GoodIds, Claimed, Render;
    if cs == [] {
      assert PartsAfter(parts, cs) == parts;
    } else {
      var before, c := cs[..|cs| - 1], cs[|cs| - 1];
      AllClaimedIs(parts, tail, ids, before);
      var r := PartsAfter(parts, before);
      ClaimedIs(r, tail, ids, c);
      assert seq(|r|, i requires 0 <= i < |r| => PartClaimed(r[i], c)) == PartsAfter(parts, cs);
    }
  }

  lemma {:induction false} RstripConcat(a: string, t: string)
    requires a != "" && !Space(a[|a| - 1])
    ensures Rstrip(a + t) == a + Rstrip(t)
  {
    if t == "" || !Space(t[|t| - 1]) {
      assert t == "" ==> a + t == a;
    } else {
      RstripConcat(a, t[..|t| - 1]);
      assert (a + t)[..|a + t| - 1] == a + t[..|t| - 1];
    }
  }

  lemma {:induction false} RenderEnds(parts: seq<Part>)
    requires parts != []
    ensures var s := Render(parts, ""); s != "" && s[|s| - 1] == '}'
  {
    var p, r := parts[0], Render(parts[1..], "");
    if |parts| == 1 {
      assert r == "";
    } else {
      RenderEnds(parts[1..]);
    }
  }

  lemma AppendedIs(parts: seq<Part>, tail: string, st: Option<string>)
    requires parts != []
    ensures Appended(Render(parts, tail), st) == Render(parts, Appended(tail, st))
  {
    var a := Render(parts, "");
    RenderEnds(parts);
    assert "" + tail == tail;
    RenderAppend(parts, "", tail);
    RstripConcat(a, tail);
    RenderAppend(parts, "", Appended(tail, st));
    assert "" + Appended(tail, st) == Appended(tail, st);
    hide Render, Rstrip;
    if st.Some? {
      assert a + Rstrip(tail) + ("\n\n" + (st.value + "\n")) == a + (Rstrip(tail) + ("\n\n" + (st.value + "\n")));
    }
  }

  lemma {:induction false} RstripPrefix(t: string)
    ensures |Rstrip(t)| <= |t| && Rstrip(t) == t[..|Rstrip(t)|]
  {
    if t != "" && Space(t[|t| - 1]) {
      RstripPrefix(t[..|t| - 1]);
    }
  }

  lemma AppendedFree(tail: string, st: Option<string>, ids: seq<string>)
    requires GoodIds(ids) && FreeOf(tail, ids) && (st.Some? ==> FreeOf(st.value, ids))
    ensures FreeOf(Appended(tail, st), ids)
  {
    if st.Some? {
      forall id | id in ids
        ensures Free(Appended(tail, st), Key(id))
      {
        RstripPrefix(tail);
        FreePrefix(tail, |Rstrip(tail)|, Key(id));
        FreeEmpty(id);
        FreeJoin(st.value, "", id);
        FreeJoin("", st.value + ("\n" + ""), id);
        FreeJoin(Rstrip(tail), "" + ("\n" + (st.value + ("\n" + ""))), id);
        assert Appended(tail, st) == Rstrip(tail) + ("\n" + ("" + ("\n" + (st.value + ("\n" + "")))));
      }
    }
  }

  lemma {:induction false} PartAfterConcat(p: Part, a: seq<Claim>, b: seq<Claim>)
    ensures PartAfter(p, a + b) == PartAfter(PartAfter(p, a), b)
  {
    if b == [] {
      assert a + b == a;
    } else {
      PartAfterConcat(p, a, b[..|b| - 1]);
      assert (a + b)[..|a + b| - 1] == a + b[..|b| - 1];
    }
  }

  lemma PartsAfterConcat(parts: seq<Part>, a: seq<Claim>, b: seq<Claim>)
    ensures PartsAfter(parts, a + b) == PartsAfter(PartsAfter(parts, a), b)
  {
    hide PartAfter;
    forall i | 0 <= i < |parts|
      ensures PartAfter(parts[i], a + b) == PartAfter(PartAfter(parts[i], a), b)
    {
      PartAfterConcat(parts[i], a, b);
    }
  }

  lemma {:induction false} PatchedIs(parts: seq<Part>, tail: string, ids: seq<string>, ps: seq<Plugin>)
    requires GoodIds(ids) && GoodParts(parts, ids) && FreeOf(tail, ids) && GoodPlugins(ps, ids) && parts != []
    ensures GoodParts(PartsAfter(parts, ClaimsOf(ps)), ids) && FreeOf(TailAfter(tail, ps), ids)
    ensures Patched(Render(parts, tail), ps) == Render(PartsAfter(parts, ClaimsOf(ps)), TailAfter(tail, ps))
  {
    hide GoodParts, FreeOf, GoodClaim, GoodIds, AllClaimed, Render, PartAfter, Appended;
    if ps == [] {
      NoClaims(parts);
    } else {
      var before, p := ps[..|ps| - 1], ps[|ps| - 1];
      PatchedIs(parts, tail, ids, before);
      var r, t := PartsAfter(parts, ClaimsOf(before)), TailAfter(tail, before);
      assert GoodPlugin(p, ids);
      AllClaimedIs(r, t, ids, p.claims);
      PartsAfterConcat(parts, ClaimsOf(before), p.claims);
      AppendedIs(PartsAfter(r, p.claims), t, p.standalone);
      AppendedFree(t, p.standalone, ids);
    }
  }

  lemma NoClaims(parts: seq<Part>)
    ensures PartsAfter(parts, []) == parts
  {
  }

  /** The end of the last slot is where the text after the slots begins. */
  lemma {:induction false} LastSlotEndIs(parts: seq<Part>, tail: string, ids: seq<string>, some: seq<string>)
    requires GoodIds(ids) && GoodParts(parts, ids) && FreeOf(tail, ids) && parts != []
    requires forall id :: id in some ==> id in ids
    ensures var r, e := LastSlotEnd(Render(parts, tail), some), |Render(parts, "")|;
            r <= e && (parts[|parts| - 1].id in some ==> r == e)
  {
    hide Key, Block, Balanced, Occurs, Match, Render, Free, GoodIds, TextParts, FreeOf;
    if some != [] {
      var id := some[|some| - 1];
      assert id in some;
      LastSlotEndIs(parts, tail, ids, some[..|some| - 1]);
      if i :| 0 <= i < |parts| && parts[i].id == id {
        MatchIsBlock(parts, tail, ids, i);
        EndOfSlot(parts, i);
        SameIdSameSlot(parts, ids, i);
      } else {
        MatchNone(parts, tail, ids, id);
      }
    }
  }

  lemma SameIdSameSlot(parts: seq<Part>, ids: seq<string>, i: nat)
    requires GoodParts(parts, ids) && i < |parts|
    ensures parts[i].id == parts[|parts| - 1].id ==> i == |parts| - 1
  {
  }

  lemma EndOfSlot(parts: seq<Part>, i: nat)
    requires i < |parts|
    ensures var end := |Render(parts[..i], parts[i].before)| + |Block(parts[i])|;
            && end <= |Render(parts, "")|
            && (i == |parts| - 1 ==> end == |Render(parts, "")|)
  {
    hide Block;
    RenderSplit(parts, "", i);
  }

  lemma StrippedIs(parts: seq<Part>, tail: string, ids: seq<string>)
    requires GoodIds(ids) && GoodParts(parts, ids) && FreeOf(tail, ids) && parts != []
    ensures Stripped(Render(parts, tail), ids) == Render(parts, "\n")
  {
    hide Render, Key, Block, Balanced;
    assert TextPart(parts[|parts| - 1], ids);
    LastSlotEndIs(parts, tail, ids, ids);
    RenderEnds(parts);
    var a := Render(parts, "");
    RenderAppend(parts, "", tail);
    RenderAppend(parts, "", "\n");
    assert "" + tail == tail && "" + "\n" == "\n";
    StripTo(Render(parts, tail), ids, a, tail);
  }

  lemma StripTo(s: string, ids: seq<string>, a: string, tail: string)
    requires s == a + tail && a != "" && !Space(a[|a| - 1]) && LastSlotEnd(s, ids) == |a|
    ensures Stripped(s, ids) == a + "\n"
  {
    hide LastSlotEnd;
    assert s[..|a|] == a;
  }

  /** The patch of a well-formed file: claimed slots replaced in place, everything behind them rebuilt. */
  lemma PatchCustomIs(parts: seq<Part>, tail: string, ids: seq<string>, ps: seq<Plugin>)
    requires GoodIds(ids) && GoodParts(parts, ids) && FreeOf(tail, ids) && GoodPlugins(ps, ids) && parts != []
    ensures var r, t := PartsAfter(parts, ClaimsOf(ps)), TailAfter("\n", ps);
            && GoodParts(r, ids) && FreeOf(t, ids)
            && PatchCustom(Render(parts, tail), ids, ps) == Render(r, t)
  {
    hide GoodParts, Stripped, Patched, Render, PartsAfter, TailAfter, Key;
    StrippedIs(parts, tail, ids);
    forall id | id in ids
      ensures Free("\n", Key(id))
    {
      FreeEmpty(id);
      FreeJoin("", "", id);
      assert "" + ("\n" + "") == "\n";
    }
    PatchedIs(parts, "\n", ids, ps);
  }

  // ---------- patching again ----------

  predicate Claims(cs: seq<Claim>, id: string) {
    exists i :: 0 <= i < |cs| && cs[i].id == id
  }

  /** A claimed slot forgets what it held; another keeps it. */
  lemma {:induction false} LastClaimWins(p: Part, q: Part, cs: seq<Claim>)
    requires p.id == q.id && p.before == q.before
    ensures PartAfter(p, cs).id == p.id && PartAfter(p, cs).before == p.before
    ensures Claims(cs, p.id) ==> PartAfter(p, cs) == PartAfter(q, cs)
    ensures !Claims(cs, p.id) ==> PartAfter(p, cs) == p
    decreases |cs|
  {
    if cs != [] {
      var before, c := cs[..|cs| - 1], cs[|cs| - 1];
      LastClaimWins(p, q, before);
      LastClaimWins(q, p, before);
      if Claims(cs, p.id) && c.id != p.id {
        var i :| 0 <= i < |cs| && cs[i].id == p.id;
        assert before[i] == cs[i];
      }
      if Claims(before, p.id) {
        var i :| 0 <= i < |before| && before[i].id == p.id;
        assert cs[i].id == p.id;
      }
    }
  }

  /** The text of a block fixes the name and the body. */
  lemma BlockInjective(p: Part, q: Part)
    requires p.id == q.id && Word(p.name) && Word(q.name) && Word(p.id) && Block(p) == Block(q)
    ensures p.name == q.name && p.body == q.body
  {
    NameEnds(p);
    NameEnds(q);
    hide Key, Block;
    var s, a := Block(p), |STRUCT| + |p.name|;
    assert s[|STRUCT|..a] == p.name && s[|STRUCT|..a] == q.name;
    var c := a + |Key(p.id)|;
    assert s[c..|s| - 1] == p.body && s[c..|s| - 1] == q.body;
  }

  /** Where the pieces of a block lie. */
  lemma NameEnds(p: Part)
    requires Word(p.name) && Word(p.id)
    ensures var s, a := Block(p), |STRUCT| + |p.name|;
            && a + |Key(p.id)| < |s| && WordEnd(s, |STRUCT|) == a && s[|STRUCT|..a] == p.name
            && s[a + |Key(p.id)|..|s| - 1] == p.body
  {
    hide Key, Occurs, WordChar, WordEnd;
    var s, a := Block(p), |STRUCT| + |p.name|;
    Letters("", p, "");
    assert "" + (Block(p) + "") == s;
    Slices(STRUCT, p.name, Key(p.id), p.body);
    SpaceEnds();
    assert s[a] == ' ';
    WordEndIs(s, |STRUCT|, a);
  }

  lemma SpaceEnds()
    ensures !WordChar(' ')
  {
  }

  lemma Slices(a: string, b: string, c: string, d: string)
    ensures var s := a + (b + (c + (d + "}")));
            && s[|a|..|a| + |b|] == b
            && |s| == |a| + |b| + |c| + |d| + 1
            && s[|a| + |b| + |c|..|s| - 1] == d
  {
    var s := a + (b + (c + (d + "}")));
    assert s[|a|..] == b + (c + (d + "}"));
    assert s[|a| + |b| + |c|..] == d + "}";
  }

  /** Two well-formed files with the same slots in the same places are equal only slot by slot. */
  lemma RenderInjective(a: seq<Part>, b: seq<Part>, tail: string, ids: seq<string>)
    requires GoodIds(ids) && GoodParts(a, ids) && GoodParts(b, ids) && FreeOf(tail, ids) && |a| == |b|
    requires forall i :: 0 <= i < |a| ==> a[i].id == b[i].id && a[i].before == b[i].before
    requires Render(a, tail) == Render(b, tail)
    ensures a == b
  {
    hide Key, Block, Balanced, Occurs, Match, Render, Free;
    forall i | 0 <= i < |a|
      ensures a[i] == b[i]
    {
      MatchIsBlock(a, tail, ids, i);
      MatchIsBlock(b, tail, ids, i);
      RenderSplit(a, tail, i);
      RenderSplit(b, tail, i);
      assert TextPart(a[i], ids) && TextPart(b[i], ids);
      Replaced(Render(a[..i], a[i].before), a[i], Render(a[i + 1..], tail), Render(a, tail));
      Replaced(Render(b[..i], b[i].before), b[i], Render(b[i + 1..], tail), Render(b, tail));
      SameBlock(Render(a, tail), Render(a[..i], a[i].before), Block(a[i]), Render(a[i + 1..], tail),
                Render(b[..i], b[i].before), Block(b[i]), Render(b[i + 1..], tail));
      BlockInjective(a[i], b[i]);
    }
  }

  lemma SameBlock(s: string, l: string, x: string, r: string, m: string, y: string, t: string)
    requires s == l + (x + r) == m + (y + t) && |l| == |m| && |x| == |y|
    ensures x == y
  {
    assert s[|l|..|l| + |x|] == x && s[|m|..|m| + |y|] == y;
  }

  /**
    Patching for P after an earlier patch for Q is patching stock for P exactly when every slot
    that Q claims and P does not is as it was: the patch never gives a slot back.
   */
  lemma PatchForgetsIff(parts: seq<Part>, tail: string, ids: seq<string>, earlier: seq<Plugin>, ps: seq<Plugin>)
    requires GoodIds(ids) && GoodParts(parts, ids) && FreeOf(tail, ids) && parts != []
    requires GoodPlugins(earlier, ids) && GoodPlugins(ps, ids)
    ensures var s := Render(parts, tail);
            (PatchCustom(PatchCustom(s, ids, earlier), ids, ps) == PatchCustom(s, ids, ps)) <==>
            (forall i :: 0 <= i < |parts| && !Claims(ClaimsOf(ps), parts[i].id) ==>
                           PartAfter(parts[i], ClaimsOf(earlier)) == parts[i])
  {
    hide Render, PatchCustom, FreeOf, GoodPlugins, GoodIds, Claims, PartAfter, ClaimsOf;
    var a, b := ClaimsOf(earlier), ClaimsOf(ps);
    var once := PartsAfter(parts, a);
    PatchCustomIs(parts, tail, ids, earlier);
    PatchCustomIs(once, TailAfter("\n", earlier), ids, ps);
    PatchCustomIs(parts, tail, ids, ps);
    var x, y := PartsAfter(once, b), PartsAfter(parts, b);
    forall i | 0 <= i < |parts|
      ensures x[i].id == y[i].id && x[i].before == y[i].before
      ensures x[i] == y[i] <==> (Claims(b, parts[i].id) || PartAfter(parts[i], a) == parts[i])
    {
      LastClaimWins(parts[i], parts[i], a);
      LastClaimWins(once[i], parts[i], b);
      LastClaimWins(parts[i], once[i], b);
    }
    var t := TailAfter("\n", ps);
    if Render(x, t) == Render(y, t) {
      RenderInjective(x, y, t, ids);
    } else {
      assert x != y;
    }
  }

  /** Patching twice is patching once. */
  lemma PatchIdempotent(parts: seq<Part>, tail: string, ids: seq<string>, ps: seq<Plugin>)
    requires GoodIds(ids) && GoodParts(parts, ids) && FreeOf(tail, ids) && GoodPlugins(ps, ids) && parts != []
    ensures var once := PatchCustom(Render(parts, tail), ids, ps);
            PatchCustom(once, ids, ps) == once
  {
    hide Render, PatchCustom, GoodParts, FreeOf, GoodPlugins, GoodIds, ClaimsOf;
    forall i | 0 <= i < |parts| && !Claims(ClaimsOf(ps), parts[i].id)
      ensures PartAfter(parts[i], ClaimsOf(ps)) == parts[i]
    {
      LastClaimWins(parts[i], parts[i], ClaimsOf(ps));
    }
    PatchForgetsIff(parts, tail, ids, ps, ps);
  }

  // ---------- files without slots ----------

  /** Nothing visible is appended. */
  predicate Blank(standalone: Option<string>) {
    standalone.None? || Rstrip(standalone.value) == ""
  }

  ghost predicate AllBlank(ps: seq<Plugin>) {
    forall i :: 0 <= i < |ps| ==> Blank(ps[i].standalone)
  }

  /** The plugins claim known slots, and what they append declares none. */
  ghost predicate AppendsFree(ps: seq<Plugin>, ids: seq<string>) {
    forall i :: 0 <= i < |ps| ==>
      && (forall j :: 0 <= j < |ps[i].claims| ==> ps[i].claims[j].id in ids)
      && (ps[i].standalone.Some? ==> FreeOf(ps[i].standalone.value, ids))
  }

  lemma {:induction false} RstripAppend(x: string, w: string)
    ensures Rstrip(x + w) == if Rstrip(w) == "" then Rstrip(x) else x + Rstrip(w)
  {
    if w == "" {
      assert x + w == x;
    } else {
      assert (x + w)[|x + w| - 1] == w[|w| - 1];
      assert (x + w)[..|x + w| - 1] == x + w[..|w| - 1];
      if Space(w[|w| - 1]) {
        RstripAppend(x, w[..|w| - 1]);
      }
    }
  }

  lemma {:induction false} RstripTwice(x: string)
    ensures Rstrip(Rstrip(x)) == Rstrip(x)
  {
    if x != "" && Space(x[|x| - 1]) {
      RstripTwice(x[..|x| - 1]);
    }
  }

  /** What an appended schema leaves in sight. */
  lemma AppendedInSight(s: string, st: Option<string>)
    ensures Rstrip(Appended(s, st)) == if Blank(st) then Rstrip(s) else Rstrip(s) + ("\n\n" + Rstrip(st.value))
  {
    if st.Some? {
      var v := st.value;
      assert Rstrip("\n") == "" && Rstrip("\n\n") == "" by {
        assert "\n\n"[..1] == "\n" && "\n"[..0] == "";
      }
      RstripAppend(v, "\n");
      RstripAppend("\n\n", v + "\n");
      RstripAppend(Rstrip(s), "\n\n" + (v + "\n"));
      RstripTwice(s);
    }
  }

  /** How much all plugins append in sight. */
  function InSight(ps: seq<Plugin>): nat {
    if ps == [] then 0
    else
      var st := ps[|ps| - 1].standalone;
      InSight(ps[..|ps| - 1]) + if Blank(st) then 0 else 2 + |Rstrip(st.value)|
  }

  lemma {:induction false} TailInSight(s: string, ps: seq<Plugin>)
    ensures |Rstrip(TailAfter(s, ps))| == |Rstrip(s)| + InSight(ps)
    ensures AllBlank(ps) ==> Rstrip(TailAfter(s, ps)) == Rstrip(s)
    ensures AllBlank(ps) <==> InSight(ps) == 0
  {
    hide Rstrip, Appended;
    if ps != [] {
      var before, p := ps[..|ps| - 1], ps[|ps| - 1];
      TailInSight(s, before);
      AppendedInSight(TailAfter(s, before), p.standalone);
    }
  }

  /** Beyond what is in sight, a tail does not depend on what it is appended to. */
  lemma {:induction false} TailForgets(s: string, u: string, ps: seq<Plugin>)
    requires Rstrip(s) == Rstrip(u)
    ensures Rstrip(TailAfter(s, ps)) == Rstrip(TailAfter(u, ps))
    ensures TailAfter(s, ps) == TailAfter(u, ps) || (TailAfter(s, ps) == s && TailAfter(u, ps) == u)
  {
    hide Rstrip;
    if ps != [] {
      var before, st := ps[..|ps| - 1], ps[|ps| - 1].standalone;
      TailForgets(s, u, before);
      AppendedInSight(TailAfter(s, before), st);
      AppendedInSight(TailAfter(u, before), st);
    }
  }

  lemma TailTwiceIff(s: string, ps: seq<Plugin>)
    ensures TailAfter(TailAfter(s, ps), ps) == TailAfter(s, ps) <==> AllBlank(ps)
  {
    hide Rstrip, TailAfter, AllBlank;
    var once := TailAfter(s, ps);
    TailInSight(s, ps);
    TailInSight(once, ps);
    if AllBlank(ps) {
      TailForgets(once, s, ps);
    }
  }

  lemma MatchFree(s: string, id: string)
    requires Free(s, Key(id))
    ensures Match(s, id).None?
  {
    FindNone(s, 0, id);
  }

  lemma {:induction false} NothingClaimed(s: string, ids: seq<string>, cs: seq<Claim>)
    requires FreeOf(s, ids) && forall i :: 0 <= i < |cs| ==> cs[i].id in ids
    ensures AllClaimed(s, cs) == s
  {
    hide Match, Free;
    if cs != [] {
      NothingClaimed(s, ids, cs[..|cs| - 1]);
      MatchFree(s, cs[|cs| - 1].id);
    }
  }

  lemma {:induction false} NothingStripped(s: string, ids: seq<string>, some: seq<string>)
    requires FreeOf(s, ids) && forall id :: id in some ==> id in ids
    ensures LastSlotEnd(s, some) == 0
  {
    hide Match, Free;
    if some != [] {
      NothingStripped(s, ids, some[..|some| - 1]);
      assert some[|some| - 1] in some;
      MatchFree(s, some[|some| - 1]);
    }
  }

  lemma {:induction false} OnlyAppended(s: string, ids: seq<string>, ps: seq<Plugin>)
    requires GoodIds(ids) && FreeOf(s, ids) && AppendsFree(ps, ids)
    ensures Patched(s, ps) == TailAfter(s, ps) && FreeOf(TailAfter(s, ps), ids)
  {
    hide FreeOf, AllClaimed, Appended, GoodIds;
    if ps != [] {
      var before, p := ps[..|ps| - 1], ps[|ps| - 1];
      OnlyAppended(s, ids, before);
      NothingClaimed(TailAfter(s, before), ids, p.claims);
      AppendedFree(TailAfter(s, before), p.standalone, ids);
    }
  }

  /** In a file without slots the patch strips and replaces nothing: it appends. */
  lemma PatchWithoutSlots(s: string, ids: seq<string>, ps: seq<Plugin>)
    requires GoodIds(ids) && FreeOf(s, ids) && AppendsFree(ps, ids)
    ensures PatchCustom(s, ids, ps) == TailAfter(s, ps) && FreeOf(TailAfter(s, ps), ids)
  {
    hide FreeOf, Patched, GoodIds, AppendsFree;
    NothingStripped(s, ids, ids);
    OnlyAppended(s, ids, ps);
  }

  /** There, patching twice is patching once exactly if no plugin appends anything in sight. */
  lemma WithoutSlotsIdempotentIff(s: string, ids: seq<string>, ps: seq<Plugin>)
    requires GoodIds(ids) && FreeOf(s, ids) && AppendsFree(ps, ids)
    ensures var once := PatchCustom(s, ids, ps);
            PatchCustom(once, ids, ps) == once <==> AllBlank(ps)
  {
    hide FreeOf, PatchCustom, GoodIds, AppendsFree, AllBlank, TailAfter;
    PatchWithoutSlots(s, ids, ps);
    PatchWithoutSlots(TailAfter(s, ps), ids, ps);
    TailTwiceIff(s, ps);
  }

  /** The docstring's promise, for every well-formed file: it holds exactly if there is a slot or nothing to append. */
  lemma PatchIdempotentIff(parts: seq<Part>, tail: string, ids: seq<string>, ps: seq<Plugin>)
    requires GoodIds(ids) && GoodParts(parts, ids) && FreeOf(tail, ids) && GoodPlugins(ps, ids)
    ensures var once := PatchCustom(Render(parts, tail), ids, ps);
            PatchCustom(once, ids, ps) == once <==> parts != [] || AllBlank(ps)
  {
    hide PatchCustom, GoodParts, FreeOf, GoodIds, AllBlank;
    if parts != [] {
      PatchIdempotent(parts, tail, ids, ps);
    } else {
      forall i | 0 <= i < |ps|
        ensures GoodPlugin(ps[i], ids)
      {
      }
      WithoutSlotsIdempotentIff(tail, ids, ps);
    }
  }

  /** An empty file, one known slot, and a plugin that appends a schema: it is appended again. */
  lemma AppendsWithoutSlots()
    ensures var ids, ps := ["0x1"], [Plugin([], Some("x"))];
            GoodIds(ids) && FreeOf("", ids) && AppendsFree(ps, ids)
            && PatchCustom(PatchCustom("", ids, ps), ids, ps) != PatchCustom("", ids, ps)
  {
    var ids, ps := ["0x1"], [Plugin([], Some("x"))];
    hide PatchCustom;
    assert Word("0x1");
    assert |Key("0x1")| > 1;
    assert Rstrip("x") == "x" && !Blank(ps[0].standalone);
    WithoutSlotsIdempotentIff("", ids, ps);
  }

  /** A slot claimed by an earlier plugin and by none now keeps the earlier struct. */
  lemma DisabledPluginStays()
    ensures var ids, stock := ["0x1"], [Part("", "Reserved", "0x1", "\n")];
            var earlier := [Plugin([Claim("0x1", "Mine", "a @0 :Bool;")], None)];
            GoodIds(ids) && GoodParts(stock, ids) && GoodPlugins(earlier, ids)
            && var s := Render(stock, "\n");
               PatchCustom(PatchCustom(s, ids, earlier), ids, []) != PatchCustom(s, ids, [])
  {
    var id := "0x1";
    var ids, stock := [id], [Part("", "Reserved", id, "\n")];
    var c := Claim(id, "Mine", "a @0 :Bool;");
    var earlier := [Plugin([c], None)];
    hide Render, PatchCustom, Depth;
    KeyShape(id);
    ShortFree("", id);
    ShortFree("\n", id);
    NoBraceFree(c.fragment, id);
    NoBraceBalanced("\n", 1);
    NoBraceBalanced(c.fragment, 1);
    assert Word(id) && Word("Reserved") && Word("Mine");
    assert TextPart(stock[0], ids) && GoodClaim(c, ids) && GoodPlugin(earlier[0], ids);
    assert earlier[..0] == [] && ClaimsOf([]) == [] && ClaimsOf(earlier) == [c] && [c][..0] == [];
    PatchForgetsIff(stock, "\n", ids, earlier, []);
    assert PartAfter(stock[0], [c]) != stock[0];
    assert !Claims([], id);
  }

  lemma ShortFree(t: string, id: string)
    requires Word(id) && |t| < 4
    ensures Free(t, Key(id))
  {
    KeyShape(id);
  }

  lemma NoBraceFree(t: string, id: string)
    requires Word(id) && '{' !in t
    ensures Free(t, Key(id))
  {
    KeyShape(id);
    forall q
      ensures !Occurs(t, q, Key(id))
    {
      if 0 <= q && q + |Key(id)| <= |t| {
        assert t[q + (|id| + 3)] in t;
        DiffersAt(t, q, Key(id), |id| + 3);
      }
    }
  }

  lemma {:induction false} NoBraceBalanced(t: string, d: nat)
    requires '{' !in t && '}' !in t
    ensures Depth(t, d) == d
  {
    if t != "" {
      NoBraceBalanced(t[1..], d);
    }
  }

  // ---------- what is appended ----------

  /** Stripping takes off exactly the white space at the end. */
  lemma {:induction false} RstripIs(s: string)
    ensures var r := Rstrip(s);
            && r <= s && (forall i :: |r| <= i < |s| ==> s[i] in {' ', '\n', '\t', '\r', '\U{0b}', '\U{0c}'})
            && (r != "" ==> r[|r| - 1] !in {' ', '\n', '\t', '\r', '\U{0b}', '\U{0c}'})
  {
    if s != "" && Space(s[|s| - 1]) {
      RstripIs(s[..|s| - 1]);
    }
  }

  /** The standalone schemas of the plugins that have one, in order. */
  function Standalones(ps: seq<Plugin>): seq<string> {
    if ps == [] then []
    else
      var p := ps[|ps| - 1];
      Standalones(ps[..|ps| - 1]) + if p.standalone.Some? then [p.standalone.value] else []
  }

  /** Each schema behind an empty line. */
  function SchemaText(ts: seq<string>): string {
    if ts == [] then "" else SchemaText(ts[..|ts| - 1]) + ("\n\n" + ts[|ts| - 1])
  }

  predicate Trimmed(t: string) {
    t != "" && !Space(t[|t| - 1])
  }

  lemma {:induction false} SchemaTextTrimmed(ts: seq<string>)
    requires ts != [] && forall t <- ts :: Trimmed(t)
    ensures Trimmed(SchemaText(ts))
  {
    var t := ts[|ts| - 1];
    assert t in ts;
    var u := SchemaText(ts[..|ts| - 1]) + ("\n\n" + t);
    assert u[|u| - 1] == t[|t| - 1];
  }

  lemma RstripLineEnd(s: string)
    requires s == "" || Trimmed(s)
    ensures Rstrip(s + "\n") == s
  {
    assert (s + "\n")[..|s|] == s;
  }

  /** The text behind the slots: every plugin's standalone schema, in order, each behind an empty line, and a line end. */
  lemma {:induction false} TailText(ps: seq<Plugin>)
    requires forall t <- Standalones(ps) :: Trimmed(t)
    ensures TailAfter("\n", ps) == SchemaText(Standalones(ps)) + "\n"
  {
    if ps == [] {
      assert SchemaText([]) + "\n" == "\n";
    } else {
      var front, st := ps[..|ps| - 1], ps[|ps| - 1].standalone;
      assert forall t <- Standalones(front) :: t in Standalones(ps);
      TailText(front);
      var ts := Standalones(front);
      if st.Some? {
        if ts != [] {
          SchemaTextTrimmed(ts);
        }
        RstripLineEnd(SchemaText(ts));
        assert (ts + [st.value])[..|ts|] == ts;
        assert SchemaText(ts) + ("\n\n" + (st.value + "\n")) == SchemaText(ts) + ("\n\n" + st.value) + "\n";
      } else {
        assert ts + [] == ts;
      }
    }
  }

  /** So a patched file is its slots, claimed or not, and that text. */
  lemma PatchCustomText(parts: seq<Part>, tail: string, ids: seq<string>, ps: seq<Plugin>)
    requires GoodIds(ids) && GoodParts(parts, ids) && FreeOf(tail, ids) && GoodPlugins(ps, ids) && parts != []
    requires forall t <- Standalones(ps) :: Trimmed(t)
    ensures PatchCustom(Render(parts, tail), ids, ps)
            == Render(PartsAfter(parts, ClaimsOf(ps)), SchemaText(Standalones(ps)) + "\n")
  {
    hide Render, PartsAfter, PatchCustom, GoodParts, FreeOf, GoodPlugins, GoodIds, TailAfter;
    PatchCustomIs(parts, tail, ids, ps);
    TailText(ps);
  }

  // ---------- the patcher ----------

  /** The search, then the walk that counts braces. */
  method MatchTopLevelStruct(content: string, slotId: string) returns (m: Option<StructMatch>)
    ensures m == Match(content, slotId)
  {
    hide DeclAt;
    var start := 0;
    while start < |content| && !DeclAt(content, start, slotId)
      invariant 0 <= start <= |content|
      invariant FindDecl(content, 0, slotId) == FindDecl(content, start, slotId)
    {
      start := start + 1;
    }
    if start == |content| {
      return None;
    }
    var depth, i := 0, OpenBrace(content, start, slotId);
    ghost var open := i;
    while i < |content|
      invariant open <= i <= |content|
      invariant CloseBrace(content[open..], 0)
                == var r := CloseBrace(content[i..], depth); if r < 0 then r else i - open + r
    {
      assert content[i..][1..] == content[i + 1..];
      if content[i] == '{' {
        depth := depth + 1;
      } else if content[i] == '}' {
        depth := depth - 1;
        if depth == 0 {
          return Some(StructMatch(start, i + 1));
        }
      }
      i := i + 1;
    }
    m := None;
  }

  method PatchCustomCapnp(stock: string, ids: seq<string>, plugins: seq<Plugin>) returns (content: string)
    ensures content == PatchCustom(stock, ids, plugins)
  {
    hide Match, Replacement, Rstrip;
    content := stock;
    var last, i := 0, 0;
    while i < |ids|
      invariant 0 <= i <= |ids| && last == LastSlotEnd(content, ids[..i])
    {
      assert ids[..i + 1][..i] == ids[..i];
      var m := MatchTopLevelStruct(content, ids[i]);
      if m.Some? && m.value.end > last {
        last := m.value.end;
      }
      i := i + 1;
    }
    assert ids[..i] == ids;
    if last > 0 {
      content := Rstrip(content[..last]) + "\n";
    }
    ghost var kept := content;
    var n := 0;
    while n < |plugins|
      invariant 0 <= n <= |plugins| && content == Patched(kept, plugins[..n])
    {
      assert plugins[..n + 1][..n] == plugins[..n];
      content := ClaimSlots(content, plugins[n].claims);
      if plugins[n].standalone.Some? {
        content := Rstrip(content) + ("\n\n" + (plugins[n].standalone.value + "\n"));
      }
      n := n + 1;
    }
    assert plugins[..n] == plugins;
  }

  method ClaimSlots(before: string, claims: seq<Claim>) returns (content: string)
    ensures content == AllClaimed(before, claims)
  {
    hide Match, Replacement;
    content := before;
    var i := 0;
    while i < |claims|
      invariant 0 <= i <= |claims| && content == AllClaimed(before, claims[..i])
    {
      assert claims[..i + 1][..i] == claims[..i];
      var m := MatchTopLevelStruct(content, claims[i].id);
      if m.Some? {
        content := content[..m.value.start] + (Replacement(claims[i]) + content[m.value.end..]);
      }
      i := i + 1;
    }
    assert claims[..i] == claims;
  }
}
