/**
  Decoding a stream of length-prefixed records that arrives in arbitrary pieces.  The record
  reader is a parameter: given the bytes so far it says "need more", "corrupt", or "a record of
  this length".
 */
module Framing {
  import opened Sequences

  datatype Head<+F> = More | Corrupt | Record(frame: F, len: nat)

  /** Outcome of decoding a buffer: frames found, undecoded tail, and whether all records were sound. */
  datatype Parsed<T, +F> = Parsed(ok: bool, frames: seq<F>, rest: seq<T>)

  /** Records are nonempty and lie within the bytes at hand. */
  ghost predicate Sound<T(!new), F(!new)>(head: seq<T> -> Head<F>) {
    forall s :: head(s).Record? ==> 0 < head(s).len <= |s|
  }

  /** Once the head is decided, more bytes behind it change nothing. */
  ghost predicate Stable<T(!new), F(!new)>(head: seq<T> -> Head<F>) {
    forall a, b :: !head(a).More? ==> head(a + b) == head(a)
  }

  ghost function Parse<T(!new), F(!new)>(head: seq<T> -> Head<F>, s: seq<T>): (p: Parsed<T, F>)
    requires Sound(head)
    decreases |s|
  {
    match head(s)
    case More => Parsed(true, [], s)
    case Corrupt => Parsed(false, [], [])
    case Record(frame, n) =>
      var p := Parse(head, s[n..]);
      Parsed(p.ok, [frame] + p.frames, p.rest)
  }

  lemma {:induction false} RestIsUndecided<T(!new), F(!new)>(head: seq<T> -> Head<F>, s: seq<T>)
    requires Sound(head)
    ensures var p := Parse(head, s);
            if p.ok then head(p.rest).More? else p.rest == []
    decreases |s|
  {
    if head(s).Record? {
      RestIsUndecided(head, s[head(s).len..]);
    }
  }

  // ---------- resuming ----------

  /** Parse `a`, then parse its undecoded tail followed by `b`. */
  ghost function Resumed<T(!new), F(!new)>(head: seq<T> -> Head<F>, a: seq<T>, b: seq<T>): Parsed<T, F>
    requires Sound(head)
  {
    var p := Parse(head, a);
    if p.ok then
      var q := Parse(head, p.rest + b);
      Parsed(q.ok, p.frames + q.frames, q.rest)
    else p
  }

  lemma {:induction false} ParseResumes<T(!new), F(!new)>(head: seq<T> -> Head<F>, a: seq<T>, b: seq<T>)
    requires Sound(head) && Stable(head)
    ensures Parse(head, a + b) == Resumed(head, a, b)
    decreases |a|
  {
    match head(a)
    case More =>
      ConcatAssoc(Parse(head, a + b).frames, [], []);
    case Corrupt =>
    case Record(frame, n) =>
      assert (a + b)[n..] == a[n..] + b;
      ParseResumes(head, a[n..], b);
      var p := Parse(head, a[n..]);
      ConcatAssoc([frame], p.frames, Parse(head, p.rest + b).frames);
  }

  /** Feed the pieces one by one, carrying the tail over; stop at the first corrupt record. */
  ghost function ReceiveAll<T(!new), F(!new)>(head: seq<T> -> Head<F>, tail: seq<T>, pieces: seq<seq<T>>): Parsed<T, F>
    requires Sound(head)
    decreases |pieces|
  {
    if pieces == [] then Parsed(true, [], tail)
    else
      var p := Parse(head, tail + pieces[0]);
      if !p.ok then p
      else
        var q := ReceiveAll(head, p.rest, pieces[1..]);
        Parsed(q.ok, p.frames + q.frames, q.rest)
  }

  /**
    Chunk independence: however a stream is cut into pieces, the receiver produces the frames,
    the tail and the verdict of parsing the whole stream at once.  This holds up to and
    including the piece on which the first corrupt record is seen.
   */
  lemma {:induction false} ChunkIndependence<T(!new), F(!new)>(head: seq<T> -> Head<F>, tail: seq<T>, pieces: seq<seq<T>>)
    requires Sound(head) && Stable(head)
    requires head(tail).More?
    ensures ReceiveAll(head, tail, pieces) == Parse(head, tail + Flatten(pieces))
    decreases |pieces|
  {
    if pieces == [] {
      ConcatAssoc(tail, [], []);
    } else {
      ConcatAssoc(tail, pieces[0], Flatten(pieces[1..]));
      ParseResumes(head, tail + pieces[0], Flatten(pieces[1..]));
      var p := Parse(head, tail + pieces[0]);
      if p.ok {
        RestIsUndecided(head, tail + pieces[0]);
        ChunkIndependence(head, p.rest, pieces[1..]);
      }
    }
  }

  // ---------- decoding in a loop ----------

  /** `frames` are the records of `s` before `pos`; parsing `s` comes down to parsing the rest. */
  ghost predicate Decoded<T(!new), F(!new)>(head: seq<T> -> Head<F>, s: seq<T>, pos: nat, frames: seq<F>)
    requires Sound(head) && pos <= |s|
  {
    var q := Parse(head, s[pos..]);
    Parse(head, s) == Parsed(q.ok, frames + q.frames, q.rest)
  }

  lemma DecodedNothing<T(!new), F(!new)>(head: seq<T> -> Head<F>, s: seq<T>)
    requires Sound(head)
    ensures Decoded(head, s, 0, [])
  {
    assert s[0..] == s;
    ConcatAssoc(Parse(head, s).frames, [], []);
  }

  lemma DecodedMore<T(!new), F(!new)>(head: seq<T> -> Head<F>, s: seq<T>, pos: nat, frames: seq<F>)
    requires Sound(head) && pos <= |s| && Decoded(head, s, pos, frames)
    ensures match head(s[pos..])
            case More => Parse(head, s) == Parsed(true, frames, s[pos..])
            case Corrupt => Parse(head, s) == Parsed(false, frames, [])
            case Record(frame, n) => pos + n <= |s| && Decoded(head, s, pos + n, frames + [frame])
  {
    ConcatAssoc(frames, [], []);
    if head(s[pos..]).Record? {
      var n := head(s[pos..]).len;
      assert s[pos..][n..] == s[pos + n..];
      ConcatAssoc(frames, [head(s[pos..]).frame], Parse(head, s[pos + n..]).frames);
    }
  }

  /** A record of `s` found at position `start`, ending at `end`. */
  datatype Found<+F> = Found(start: nat, frame: F, end: nat)

  ghost predicate FoundIn<T(!new), F(!new)>(head: seq<T> -> Head<F>, s: seq<T>, x: Found<F>) {
    x.start <= x.end <= |s| && head(s[x.start..]) == Record(x.frame, x.end - x.start)
  }

  function Frames<F>(trail: seq<Found<F>>): seq<F> {
    if trail == [] then [] else Frames(trail[..|trail| - 1]) + [trail[|trail| - 1].frame]
  }

  function End<F>(trail: seq<Found<F>>): nat {
    if trail == [] then 0 else trail[|trail| - 1].end
  }

  /** The trail of a decoding loop: records found back to back from the start of `s`. */
  ghost predicate Trail<T(!new), F(!new)>(head: seq<T> -> Head<F>, s: seq<T>, trail: seq<Found<F>>) {
    trail == [] ||
    var n := |trail| - 1;
    Trail(head, s, trail[..n]) && trail[n].start == End(trail[..n]) && FoundIn(head, s, trail[n])
  }

  lemma {:induction false} TrailDecodes<T(!new), F(!new)>(head: seq<T> -> Head<F>, s: seq<T>, trail: seq<Found<F>>)
    requires Sound(head) && Trail(head, s, trail)
    ensures End(trail) <= |s| && Decoded(head, s, End(trail), Frames(trail))
    decreases |trail|
  {
    if trail == [] {
      DecodedNothing(head, s);
    } else {
      var before := trail[..|trail| - 1];
      TrailDecodes(head, s, before);
      DecodedMore(head, s, End(before), Frames(before));
    }
  }

  lemma TrailGrows<T(!new), F(!new)>(head: seq<T> -> Head<F>, s: seq<T>, trail: seq<Found<F>>)
    requires Trail(head, s, trail) && End(trail) <= |s|
    requires head(s[End(trail)..]).Record? && End(trail) + head(s[End(trail)..]).len <= |s|
    ensures var r := head(s[End(trail)..]);
            var more := trail + [Found(End(trail), r.frame, End(trail) + r.len)];
            Trail(head, s, more) && Frames(more) == Frames(trail) + [r.frame] && End(more) == End(trail) + r.len
  {
    var r := head(s[End(trail)..]);
    var more := trail + [Found(End(trail), r.frame, End(trail) + r.len)];
    assert more[..|more| - 1] == trail;
  }

  /** What the loop's exit says about the whole buffer. */
  lemma TrailMeans<T(!new), F(!new)>(head: seq<T> -> Head<F>, s: seq<T>, trail: seq<Found<F>>)
    requires Sound(head) && Trail(head, s, trail)
    ensures End(trail) <= |s|
    ensures match head(s[End(trail)..])
            case More => Parse(head, s) == Parsed(true, Frames(trail), s[End(trail)..])
            case Corrupt => Parse(head, s) == Parsed(false, Frames(trail), [])
            case Record(_, _) => true
  {
    TrailDecodes(head, s, trail);
    DecodedMore(head, s, End(trail), Frames(trail));
  }
}
