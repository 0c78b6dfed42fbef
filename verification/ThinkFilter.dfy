/** The streaming filter that routes model output to tokens or reasoning and drops the tags.

The reference is `Script`: a text read as runs separated by tags, where no run contains a tag
of its own mode. Every text has exactly one such reading (`Scan`, `ScriptUnique`), and the
filter's output is that of the reading of the whole text, however the text is cut. */
module ThinkFilter {
  import opened Options
  import opened ThinkTags

  datatype ThinkSegment = Token(text: string) | Reasoning(text: string)

  /** Outside every block, or inside a block opened by a tag of this name. */
  datatype Mode = Visible | Hidden(name: string)

  /** One emitted character and where it was routed. */
  datatype Glyph = Shown(c: char) | Thought(c: char)

  function Paint(hidden: bool, run: string): (g: seq<Glyph>)
    ensures |g| == |run|
  {
    seq(|run|, i requires 0 <= i < |run| => if hidden then Thought(run[i]) else Shown(run[i]))
  }

  function Stream(segments: seq<ThinkSegment>): seq<Glyph> {
    if segments == [] then []
    else
      var last := segments[|segments| - 1];
      Stream(segments[..|segments| - 1]) + Paint(last.Reasoning?, last.text)
  }

  // ----- The reference reading of a text -----

  datatype Script =
    | Tail(run: string)
    | Block(run: string, tag: string, next: Mode, rest: Script)

  function Text(sc: Script): string {
    match sc
    case Tail(run) => run
    case Block(run, tag, _, rest) => run + tag + Text(rest)
  }

  function Painted(mode: Mode, sc: Script): seq<Glyph>
    decreases sc
  {
    match sc
    case Tail(run) => Paint(mode.Hidden?, run)
    case Block(run, _, next, rest) => Paint(mode.Hidden?, run) + Painted(next, rest)
  }

  /** `s[pos..end]` is a tag that leaves `mode` for `next`: an opener of any name outside a
  block, the closer of the opener's own name inside one. */
  ghost predicate Turns(mode: Mode, s: string, pos: int, end: int, next: Mode) {
    if mode.Visible? then next.Hidden? && TagAt(s, pos, end, false, next.name)
    else next.Visible? && TagAt(s, pos, end, true, mode.name)
  }

  ghost predicate NoTurn(mode: Mode, s: string) {
    forall pos, end, next :: !Turns(mode, s, pos, end, next)
  }

  ghost predicate Faithful(mode: Mode, sc: Script)
    decreases sc
  {
    match sc
    case Tail(run) => NoTurn(mode, run)
    case Block(run, tag, next, rest) =>
      NoTurn(mode, run) && Turns(mode, tag, 0, |tag|, next) && Faithful(next, rest)
  }

  // ----- Turning points -----

  /** The first tag of `s` for `mode` is `s[pos..end]`. */
  ghost predicate FirstTurn(mode: Mode, s: string, pos: int, end: int, next: Mode) {
    Turns(mode, s, pos, end, next) && forall p, e, n :: Turns(mode, s, p, e, n) ==> pos <= p
  }

  lemma TurnsBounds(mode: Mode, s: string, pos: int, end: int, next: Mode)
    requires Turns(mode, s, pos, end, next)
    ensures 0 <= pos < end <= |s| && s[pos] == '<'
  {
  }

  lemma TurnsMoves(mode: Mode, s: string, s': string, d: int, pos: int, end: int, next: Mode)
    requires Turns(mode, s, pos, end, next)
    requires 0 <= pos - d && end - d <= |s'| && s[pos..end] == s'[pos - d..end - d]
    ensures Turns(mode, s', pos - d, end - d, next)
  {
    TagMoves(s, s', d, pos, end, mode.Hidden?, if mode.Hidden? then mode.name else next.name);
  }

  lemma TurnsUnique(mode: Mode, s: string, pos: int, end: int, next: Mode, end': int, next': Mode)
    requires Turns(mode, s, pos, end, next) && Turns(mode, s, pos, end', next')
    ensures end == end' && next == next'
  {
    TagUnique(s, pos, end, end', mode.Hidden?,
      if mode.Hidden? then mode.name else next.name, if mode.Hidden? then mode.name else next'.name);
  }

  /** Tags do not overlap: one that starts before another ends before it. */
  lemma TurnsApart(mode: Mode, s: string, pos: int, end: int, next: Mode, k: int)
    requires Turns(mode, s, pos, end, next) && pos < k < |s| && s[k] == '<'
    ensures end <= k
  {
    if k < end {
      TagBrackets(s, pos, end, mode.Hidden?, if mode.Hidden? then mode.name else next.name, k);
    }
  }

  lemma {:induction false} FirstTurnExists(mode: Mode, s: string, pos: int, end: int, next: Mode)
    requires Turns(mode, s, pos, end, next)
    ensures exists p, e, n :: FirstTurn(mode, s, p, e, n)
    decreases pos
  {
    TurnsBounds(mode, s, pos, end, next);
    if !FirstTurn(mode, s, pos, end, next) {
      var p, e, n :| Turns(mode, s, p, e, n) && p < pos;
      TurnsBounds(mode, s, p, e, n);
      FirstTurnExists(mode, s, p, e, n);
    }
  }

  /** Before the first turn there is none, and later text does not change which is first. */
  lemma FirstTurnExtends(mode: Mode, s: string, x: string, pos: int, end: int, next: Mode)
    requires FirstTurn(mode, s, pos, end, next)
    ensures FirstTurn(mode, s + x, pos, end, next)
    ensures 0 <= pos < end <= |s| && NoTurn(mode, s[..pos])
  {
    TurnsBounds(mode, s, pos, end, next);
    assert s[pos..end] == (s + x)[pos..end];
    TurnsMoves(mode, s, s + x, 0, pos, end, next);
    forall p, e, n | Turns(mode, s + x, p, e, n) ensures pos <= p {
      TurnsBounds(mode, s + x, p, e, n);
      if p < pos {
        TurnsApart(mode, s + x, p, e, n, pos);
        assert s[p..e] == (s + x)[p..e];
        TurnsMoves(mode, s + x, s, 0, p, e, n);
      }
    }
    forall p, e, n ensures !Turns(mode, s[..pos], p, e, n) {
      if Turns(mode, s[..pos], p, e, n) {
        TurnsBounds(mode, s[..pos], p, e, n);
        assert s[p..e] == s[..pos][p..e];
        TurnsMoves(mode, s[..pos], s, 0, p, e, n);
      }
    }
  }

  /** A turn right after a run without turns is the first one. */
  lemma TurnAfterRun(mode: Mode, run: string, tag: string, tail: string, next: Mode)
    requires NoTurn(mode, run) && Turns(mode, tag, 0, |tag|, next)
    ensures FirstTurn(mode, run + tag + tail, |run|, |run + tag|, next)
  {
    var s := run + tag + tail;
    TurnsBounds(mode, tag, 0, |tag|, next);
    assert s[|run|..|run + tag|] == tag[0..|tag|];
    TurnsMoves(mode, tag, s, -|run|, 0, |tag|, next);
    assert s[|run|] == tag[0];
    forall p, e, n | Turns(mode, s, p, e, n) ensures |run| <= p {
      TurnsBounds(mode, s, p, e, n);
      if p < |run| {
        TurnsApart(mode, s, p, e, n, |run|);
        assert s[p..e] == run[p..e];
        TurnsMoves(mode, s, run, 0, p, e, n);
      }
    }
  }

  lemma FirstTurnCuts(mode: Mode, s: string, pos: int, end: int, next: Mode)
    requires FirstTurn(mode, s, pos, end, next)
    ensures 0 <= pos < end <= |s| && s == s[..pos] + s[pos..end] + s[end..]
    ensures NoTurn(mode, s[..pos]) && Turns(mode, s[pos..end], 0, end - pos, next)
  {
    FirstTurnExtends(mode, s, "", pos, end, next);
    TurnsMoves(mode, s, s[pos..end], pos, pos, end, next);
  }

  // ----- The one reading -----

  lemma BlockIsFaithful(mode: Mode, s: string, pos: int, end: int, next: Mode, rest: Script)
    requires FirstTurn(mode, s, pos, end, next)
    requires 0 <= pos < end <= |s| && Faithful(next, rest) && Text(rest) == s[end..]
    ensures Faithful(mode, Block(s[..pos], s[pos..end], next, rest))
    ensures Text(Block(s[..pos], s[pos..end], next, rest)) == s
  {
    FirstTurnCuts(mode, s, pos, end, next);
  }

  lemma {:induction false} ReadingExists(mode: Mode, s: string)
    ensures exists sc :: Faithful(mode, sc) && Text(sc) == s
    decreases |s|
  {
    if pos, end, next :| FirstTurn(mode, s, pos, end, next) {
      TurnsBounds(mode, s, pos, end, next);
      ReadingExists(next, s[end..]);
      var rest :| Faithful(next, rest) && Text(rest) == s[end..];
      BlockIsFaithful(mode, s, pos, end, next, rest);
    } else {
      forall pos, end, next ensures !Turns(mode, s, pos, end, next) {
        if Turns(mode, s, pos, end, next) {
          FirstTurnExists(mode, s, pos, end, next);
        }
      }
      assert Faithful(mode, Tail(s));
    }
  }

  /** The faithful reading of `s` from `mode`, by a reader who sees the whole text at once. */
  ghost function Scan(mode: Mode, s: string): (sc: Script)
    ensures Faithful(mode, sc) && Text(sc) == s
  {
    ReadingExists(mode, s);
    var sc :| Faithful(mode, sc) && Text(sc) == s;
    sc
  }

  /** A text has one faithful reading. */
  lemma {:induction false} ScriptUnique(mode: Mode, a: Script, b: Script)
    requires Faithful(mode, a) && Faithful(mode, b) && Text(a) == Text(b)
    ensures a == b
    decreases a
  {
    if a.Block? {
      TurnAfterRun(mode, a.run, a.tag, Text(a.rest), a.next);
    }
    if b.Block? {
      TurnAfterRun(mode, b.run, b.tag, Text(b.rest), b.next);
    }
    if a.Block? && b.Block? {
      var s := Text(a);
      assert |a.run| == |b.run|;
      TurnsUnique(mode, s, |a.run|, |a.run + a.tag|, a.next, |b.run + b.tag|, b.next);
      assert a.run == s[..|a.run|] == b.run;
      assert a.tag == s[|a.run|..|a.run + a.tag|] == b.tag;
      assert Text(a.rest) == s[|a.run + a.tag|..] == Text(b.rest);
      ScriptUnique(a.next, a.rest, b.rest);
    }
  }

  /** What is emitted for the text `s` read from `mode`. */
  ghost function Meaning(mode: Mode, s: string): seq<Glyph> {
    Painted(mode, Scan(mode, s))
  }

  /** Any faithful reading gives the meaning. */
  lemma MeaningOfScript(mode: Mode, sc: Script)
    requires Faithful(mode, sc)
    ensures Meaning(mode, Text(sc)) == Painted(mode, sc)
    ensures EndOf(mode, Text(sc)) == Ending(mode, sc)
  {
    ScriptUnique(mode, sc, Scan(mode, Text(sc)));
  }

  /** Where the unfinished tag at the end of a run starts; the run's length when there is none. */
  ghost function HeldFrom(closing: bool, run: string): (safe: nat)
    ensures safe <= |run| && (safe < |run| ==> UnfinishedTag(run, safe, closing))
    ensures forall pos :: UnfinishedTag(run, pos, closing) ==> pos == safe
  {
    if pos :| UnfinishedTag(run, pos, closing) then
      UnfinishedUnique(run, pos, closing);
      pos
    else |run|
  }

  lemma UnfinishedUnique(s: string, pos: int, closing: bool)
    requires UnfinishedTag(s, pos, closing)
    ensures forall p :: UnfinishedTag(s, p, closing) ==> p == pos
  {
    forall p | UnfinishedTag(s, p, closing) ensures p == pos {
      var later := if pos <= p then p else pos;
      UnfinishedIsLast(s, pos, closing, later);
      UnfinishedIsLast(s, p, closing, later);
    }
  }

  /** The mode a reading ends in, and the unfinished tag it ends with. */
  ghost function Ending(mode: Mode, sc: Script): (Mode, string)
    decreases sc
  {
    match sc
    case Tail(run) => (mode, run[HeldFrom(mode.Hidden?, run)..])
    case Block(_, _, next, rest) => Ending(next, rest)
  }

  ghost function EndOf(mode: Mode, s: string): (Mode, string) {
    Ending(mode, Scan(mode, s))
  }

  lemma MeaningOfTurn(mode: Mode, s: string, pos: int, end: int, next: Mode)
    requires FirstTurn(mode, s, pos, end, next)
    ensures 0 <= pos < end <= |s|
    ensures Meaning(mode, s) == Paint(mode.Hidden?, s[..pos]) + Meaning(next, s[end..])
    ensures EndOf(mode, s) == EndOf(next, s[end..])
  {
    TurnsBounds(mode, s, pos, end, next);
    var sc := Block(s[..pos], s[pos..end], next, Scan(next, s[end..]));
    BlockIsFaithful(mode, s, pos, end, next, sc.rest);
    MeaningOfScript(mode, sc);
  }

  lemma MeaningOfRun(mode: Mode, s: string)
    requires NoTurn(mode, s)
    ensures Meaning(mode, s) == Paint(mode.Hidden?, s)
    ensures EndOf(mode, s) == (mode, s[HeldFrom(mode.Hidden?, s)..])
  {
    MeaningOfScript(mode, Tail(s));
  }

  // ----- What a block is, without the reading -----

  lemma NoTagNoTurn(s: string)
    requires forall pos, end, name :: !TagAt(s, pos, end, false, name)
    ensures NoTurn(Visible, s)
  {
  }

  lemma NoCloserNoTurn(s: string, name: string)
    requires forall pos, end :: !TagAt(s, pos, end, true, name)
    ensures NoTurn(Hidden(name), s)
  {
  }

  lemma OpenedBy(a: string, open: string, rest: string, name: string)
    requires IsTag(open, false, name)
    requires forall pos, end, any :: !TagAt(a, pos, end, false, any)
    ensures Meaning(Visible, a + open + rest) == Paint(false, a) + Meaning(Hidden(name), rest)
  {
    NoTagNoTurn(a);
    var s := a + open + rest;
    TurnAfterRun(Visible, a, open, rest, Hidden(name));
    MeaningOfTurn(Visible, s, |a|, |a + open|, Hidden(name));
    assert s[..|a|] == a && s[|a + open|..] == rest;
  }

  lemma ClosedBy(b: string, close: string, rest: string, name: string)
    requires IsTag(close, true, name)
    requires forall pos, end :: !TagAt(b, pos, end, true, name)
    ensures Meaning(Hidden(name), b + close + rest) == Paint(true, b) + Meaning(Visible, rest)
  {
    NoCloserNoTurn(b, name);
    var s := b + close + rest;
    TurnAfterRun(Hidden(name), b, close, rest, Visible);
    MeaningOfTurn(Hidden(name), s, |b|, |b + close|, Visible);
    assert s[..|b|] == b && s[|b + close|..] == rest;
  }

  /** Text without an opener, an opener, text without a closer of the same name, that closer:
  the first text is shown, the second is thought, both tags go, and what follows is read from
  the start. The second text may hold closers of the other name and openers of both. */
  lemma BlockIsRouted(a: string, open: string, b: string, close: string, rest: string, name: string)
    requires name == "think" || name == "thinking"
    requires IsTag(open, false, name) && IsTag(close, true, name)
    requires forall pos, end, any :: !TagAt(a, pos, end, false, any)
    requires forall pos, end :: !TagAt(b, pos, end, true, name)
    ensures
      var out := Meaning(Visible, a + open + b + close + rest);
      && |a| + |b| <= |out|
      && (forall i :: 0 <= i < |a| ==> out[i] == Shown(a[i]))
      && (forall i :: 0 <= i < |b| ==> out[|a| + i] == Thought(b[i]))
      && out[|a| + |b|..] == Meaning(Visible, rest)
  {
    assert a + open + b + close + rest == a + open + (b + close + rest);
    OpenedBy(a, open, b + close + rest, name);
    ClosedBy(b, close, rest, name);
  }

  /** A block that its own closer never ends: everything after the opener is thought. */
  lemma OpenBlockIsThought(a: string, open: string, b: string, name: string)
    requires name == "think" || name == "thinking"
    requires IsTag(open, false, name)
    requires forall pos, end, any :: !TagAt(a, pos, end, false, any)
    requires forall pos, end :: !TagAt(b, pos, end, true, name)
    ensures
      var out := Meaning(Visible, a + open + b);
      && |out| == |a| + |b|
      && (forall i :: 0 <= i < |a| ==> out[i] == Shown(a[i]))
      && (forall i :: 0 <= i < |b| ==> out[|a| + i] == Thought(b[i]))
  {
    OpenedBy(a, open, b, name);
    NoCloserNoTurn(b, name);
    MeaningOfRun(Hidden(name), b);
  }

  /** Text without an opener is shown as it is, stray closers included. */
  lemma PlainTextIsShown(a: string)
    requires forall pos, end, any :: !TagAt(a, pos, end, false, any)
    ensures |Meaning(Visible, a)| == |a|
    ensures forall i :: 0 <= i < |a| ==> Meaning(Visible, a)[i] == Shown(a[i])
  {
    NoTagNoTurn(a);
    MeaningOfRun(Visible, a);
  }

  /** A segment adds its characters to the stream, a token as shown and reasoning as thought. */
  lemma SegmentIsAppended(out: seq<ThinkSegment>, segment: ThinkSegment)
    ensures
      var n, all := |Stream(out)|, Stream(out + [segment]);
      && |all| == n + |segment.text| && all[..n] == Stream(out)
      && (segment.Token? ==> forall i :: 0 <= i < |segment.text| ==> all[n + i] == Shown(segment.text[i]))
      && (segment.Reasoning? ==> forall i :: 0 <= i < |segment.text| ==> all[n + i] == Thought(segment.text[i]))
  {
    assert (out + [segment])[..|out|] == out;
  }

  // ----- Emitting early -----

  /** However the text goes on, `s` gives `out` followed by what `s'` gives, and both end alike. */
  ghost predicate Resumes(mode: Mode, s: string, out: seq<Glyph>, mode': Mode, s': string) {
    forall x: string ::
      Meaning(mode, s + x) == out + Meaning(mode', s' + x) && EndOf(mode, s + x) == EndOf(mode', s' + x)
  }

  lemma ResumesRefl(mode: Mode, s: string)
    ensures Resumes(mode, s, Stream([]), mode, s)
  {
  }

  lemma ResumesTrans(m0: Mode, s0: string, o0: seq<Glyph>, m1: Mode, s1: string, o1: seq<Glyph>, m2: Mode, s2: string)
    requires Resumes(m0, s0, o0, m1, s1) && Resumes(m1, s1, o1, m2, s2)
    ensures Resumes(m0, s0, o0 + o1, m2, s2)
  {
    forall x: string
      ensures Meaning(m0, s0 + x) == o0 + o1 + Meaning(m2, s2 + x) && EndOf(m0, s0 + x) == EndOf(m2, s2 + x)
    {
      assert EndOf(m0, s0 + x) == EndOf(m1, s1 + x);
      assert Meaning(m0, s0 + x) == o0 + Meaning(m1, s1 + x);
      assert o0 + (o1 + Meaning(m2, s2 + x)) == o0 + o1 + Meaning(m2, s2 + x);
    }
  }

  /** A first turn stays the first turn: the run before it can be emitted. */
  lemma TurnResumes(mode: Mode, s: string, pos: int, end: int, next: Mode)
    requires FirstTurn(mode, s, pos, end, next)
    ensures 0 <= pos < end <= |s| && Resumes(mode, s, Paint(mode.Hidden?, s[..pos]), next, s[end..])
  {
    TurnsBounds(mode, s, pos, end, next);
    forall x: string
      ensures Meaning(mode, s + x) == Paint(mode.Hidden?, s[..pos]) + Meaning(next, s[end..] + x)
      ensures EndOf(mode, s + x) == EndOf(next, s[end..] + x)
    {
      FirstTurnExtends(mode, s, x, pos, end, next);
      MeaningOfTurn(mode, s + x, pos, end, next);
      assert (s + x)[..pos] == s[..pos] && (s + x)[end..] == s[end..] + x;
    }
  }

  /** Without a turn, everything before the unfinished tag at the end can be emitted: a turn
  that later text completes cannot start any earlier. */
  lemma HoldBackResumes(mode: Mode, s: string, safe: int)
    requires NoTurn(mode, s) && 0 <= safe <= |s|
    requires forall pos :: UnfinishedTag(s, pos, mode.Hidden?) ==> safe <= pos
    ensures Resumes(mode, s, Paint(mode.Hidden?, s[..safe]), mode, s[safe..])
  {
    forall x: string
      ensures Meaning(mode, s + x) == Paint(mode.Hidden?, s[..safe]) + Meaning(mode, s[safe..] + x)
      ensures EndOf(mode, s + x) == EndOf(mode, s[safe..] + x)
    {
      HoldBackStep(mode, s, safe, x);
    }
  }

  lemma LateTurns(mode: Mode, s: string, safe: int, x: string, pos: int, end: int, next: Mode)
    requires NoTurn(mode, s) && 0 <= safe <= |s|
    requires forall pos :: UnfinishedTag(s, pos, mode.Hidden?) ==> safe <= pos
    requires Turns(mode, s + x, pos, end, next)
    ensures safe <= pos
  {
    TurnsBounds(mode, s + x, pos, end, next);
    if pos < safe {
      if end <= |s| {
        assert (s + x)[pos..end] == s[pos..end];
        TurnsMoves(mode, s + x, s, 0, pos, end, next);
      } else {
        StraddlerIsUnfinished(s, x, pos, end, mode.Hidden?, if mode.Hidden? then mode.name else next.name);
      }
    }
  }

  lemma LongerRun(mode: Mode, s: string, safe: int, x: string, k: int)
    requires NoTurn(mode, s) && 0 <= safe <= |s| && safe <= k <= |s + x|
    requires forall pos :: UnfinishedTag(s, pos, mode.Hidden?) ==> safe <= pos
    requires NoTurn(mode, (s + x)[safe..k])
    ensures NoTurn(mode, (s + x)[..k])
  {
    var whole := s + x;
    forall pos, end, next ensures !Turns(mode, whole[..k], pos, end, next) {
      if Turns(mode, whole[..k], pos, end, next) {
        TurnsBounds(mode, whole[..k], pos, end, next);
        assert whole[..k][pos..end] == whole[pos..end];
        TurnsMoves(mode, whole[..k], whole, 0, pos, end, next);
        LateTurns(mode, s, safe, x, pos, end, next);
        assert whole[..k][pos..end] == whole[safe..k][pos - safe..end - safe];
        TurnsMoves(mode, whole[..k], whole[safe..k], safe, pos, end, next);
      }
    }
  }

  lemma PaintConcat(hidden: bool, a: string, b: string)
    ensures Paint(hidden, a + b) == Paint(hidden, a) + Paint(hidden, b)
  {
  }

  lemma LongerScript(mode: Mode, run: string, sc: Script)
    requires Faithful(mode, sc) && NoTurn(mode, run + sc.run)
    ensures Meaning(mode, run + Text(sc)) == Paint(mode.Hidden?, run) + Painted(mode, sc)
    ensures EndOf(mode, run + Text(sc)) ==
      if sc.Block? then Ending(mode, sc) else (mode, (run + sc.run)[HeldFrom(mode.Hidden?, run + sc.run)..])
  {
    hide Turns;
    PaintConcat(mode.Hidden?, run, sc.run);
    match sc
    case Tail(r) =>
      MeaningOfScript(mode, Tail(run + r));
    case Block(r, tag, next, rest) =>
      MeaningOfScript(mode, Block(run + r, tag, next, rest));
      assert run + (r + tag + Text(rest)) == run + r + tag + Text(rest);
  }

  lemma LateUnfinished(mode: Mode, s: string, safe: int, x: string, pos: int)
    requires 0 <= safe <= |s| && UnfinishedTag(s + x, pos, mode.Hidden?)
    requires forall pos :: UnfinishedTag(s, pos, mode.Hidden?) ==> safe <= pos
    ensures safe <= pos
  {
    var ext: string, name :| ext != "" && TagAt(s + x + ext, pos, |s + x + ext|, mode.Hidden?, name);
    if pos < safe {
      assert s + x + ext == s + (x + ext);
      StraddlerIsUnfinished(s, x + ext, pos, |s + x + ext|, mode.Hidden?, name);
    }
  }

  /** Text in front of a run in which no unfinished tag starts does not change what is held. */
  lemma HeldAfter(closing: bool, run: string, r: string)
    requires forall pos :: UnfinishedTag(run + r, pos, closing) ==> |run| <= pos
    ensures (run + r)[HeldFrom(closing, run + r)..] == r[HeldFrom(closing, r)..]
  {
    var a, b := HeldFrom(closing, run + r), HeldFrom(closing, r);
    if a < |run + r| {
      UnfinishedMoves(run + r, a, closing);
      UnfinishedMoves(r, a - |run|, closing);
      assert (run + r)[a..] == r[a - |run|..];
    }
    if b < |r| {
      UnfinishedMoves(run + r, |run| + b, closing);
      UnfinishedMoves(r, b, closing);
      assert (run + r)[|run| + b..] == r[b..];
    }
  }

  lemma HoldBackStep(mode: Mode, s: string, safe: int, x: string)
    requires NoTurn(mode, s) && 0 <= safe <= |s|
    requires forall pos :: UnfinishedTag(s, pos, mode.Hidden?) ==> safe <= pos
    ensures Meaning(mode, s + x) == Paint(mode.Hidden?, s[..safe]) + Meaning(mode, s[safe..] + x)
    ensures EndOf(mode, s + x) == EndOf(mode, s[safe..] + x)
  {
    var sc := Scan(mode, s[safe..] + x);
    RunStartsText(sc);
    var k := safe + |sc.run|;
    assert s + x == s[..safe] + Text(sc);
    assert (s + x)[safe..k] == sc.run && (s + x)[..k] == s[..safe] + sc.run;
    LongerRun(mode, s, safe, x, k);
    LongerScript(mode, s[..safe], sc);
    if sc.Tail? {
      forall pos | UnfinishedTag(s + x, pos, mode.Hidden?) ensures safe <= pos {
        LateUnfinished(mode, s, safe, x, pos);
      }
      HeldAfter(mode.Hidden?, s[..safe], sc.run);
    }
  }

  lemma RunStartsText(sc: Script)
    ensures |sc.run| <= |Text(sc)| && Text(sc)[..|sc.run|] == sc.run
  {
  }

  lemma StreamPush(out: seq<ThinkSegment>, segment: ThinkSegment)
    ensures Stream(if segment.text == "" then out else out + [segment]) ==
      Stream(out) + Paint(segment.Reasoning?, segment.text)
  {
    assert (out + [segment])[..|out|] == out;
  }

  lemma TurnEmitted(m0: Mode, s0: string, o0: seq<Glyph>, mode: Mode, s: string, pos: int, end: int, next: Mode)
    requires Resumes(m0, s0, o0, mode, s) && FirstTurn(mode, s, pos, end, next)
    ensures 0 <= pos < end <= |s|
    ensures Resumes(m0, s0, o0 + Paint(mode.Hidden?, s[..pos]), next, s[end..])
  {
    TurnResumes(mode, s, pos, end, next);
    ResumesTrans(m0, s0, o0, mode, s, Paint(mode.Hidden?, s[..pos]), next, s[end..]);
  }

  lemma RunEmitted(m0: Mode, s0: string, o0: seq<Glyph>, mode: Mode, s: string, safe: int)
    requires Resumes(m0, s0, o0, mode, s) && NoTurn(mode, s) && 0 <= safe <= |s|
    requires forall pos :: UnfinishedTag(s, pos, mode.Hidden?) ==> safe <= pos
    ensures Resumes(m0, s0, o0 + Paint(mode.Hidden?, s[..safe]), mode, s[safe..])
  {
    HoldBackResumes(mode, s, safe);
    ResumesTrans(m0, s0, o0, mode, s, Paint(mode.Hidden?, s[..safe]), mode, s[safe..]);
  }

  /** A text from which nothing more can be emitted yet. */
  ghost predicate Settled(mode: Mode, s: string) {
    s == "" || UnfinishedTag(s, 0, mode.Hidden?)
  }

  lemma HeldIsSettled(mode: Mode, s: string)
    ensures Settled(mode, s[HeldFrom(mode.Hidden?, s)..])
  {
    var safe := HeldFrom(mode.Hidden?, s);
    if safe < |s| { UnfinishedMoves(s, safe, mode.Hidden?); }
  }

  /** A turn ends in `>`. */
  lemma TurnEnds(mode: Mode, s: string, pos: int, end: int, next: Mode)
    requires Turns(mode, s, pos, end, next)
    ensures 0 <= pos < end <= |s| && s[end - 1] == '>'
  {
    TurnsBounds(mode, s, pos, end, next);
    TagBrackets(s, pos, end, mode.Hidden?, if mode.Hidden? then mode.name else next.name, end - 1);
  }

  lemma SettledHasNoTurn(mode: Mode, s: string)
    requires Settled(mode, s)
    ensures NoTurn(mode, s)
  {
    hide Turns, UnfinishedTag;
    forall pos, end, next ensures !Turns(mode, s, pos, end, next) {
      if Turns(mode, s, pos, end, next) {
        TurnEnds(mode, s, pos, end, next);
        UnfinishedIsLast(s, 0, mode.Hidden?, end - 1);
      }
    }
  }

  lemma SettledMeaning(mode: Mode, s: string)
    requires Settled(mode, s)
    ensures Meaning(mode, s) == Paint(mode.Hidden?, s) && EndOf(mode, s) == (mode, s)
  {
    hide NoTurn;
    SettledHasNoTurn(mode, s);
    MeaningOfRun(mode, s);
    var safe := HeldFrom(mode.Hidden?, s);
    assert s[0..] == s;
  }

  lemma SettledEnds(m0: Mode, s0: string, out: seq<Glyph>, mode: Mode, s: string)
    requires Resumes(m0, s0, out, mode, s) && Settled(mode, s)
    ensures EndOf(m0, s0) == (mode, s) && Meaning(m0, s0) == out + Paint(mode.Hidden?, s)
  {
    assert EndOf(m0, s0 + "") == EndOf(mode, s + "");
    assert s0 + "" == s0 && s + "" == s;
    SettledMeaning(mode, s);
  }

  // ----- The filter -----

  class InlineThinkFilter {
    var insideThink: bool
    var tagName: string
    var pending: string

    /** The name is kept after a block closes; only inside one does it matter. */
    ghost predicate Valid()
      reads this
    {
      insideThink ==> tagName in TAG_NAMES
    }

    ghost function CurrentMode(): Mode
      reads this
    {
      if insideThink then Hidden(tagName) else Visible
    }

    constructor ()
      ensures Valid() && CurrentMode() == Visible && pending == ""
    {
      insideThink := false;
      tagName := "";
      pending := "";
    }

    static method FindOpenTag(s: string) returns (r: Option<(nat, nat, string)>)
      ensures r.Some? ==> FirstTurn(Visible, s, r.value.0, r.value.1, Hidden(r.value.2)) && r.value.2 in TAG_NAMES
      ensures r.None? ==> NoTurn(Visible, s)
    {
      for pos := 0 to |s|
        invariant forall p, e, n :: Turns(Visible, s, p, e, n) ==> pos <= p
      {
        if s[pos] == '<' {
          var tag := ParseThinkTagAt(s, pos, false, None);
          if tag.Some? {
            var (end, name) := tag.value;
            assert Turns(Visible, s, pos, end, Hidden(name));
            return Some((pos, end, name));
          }
        }
      }
      return None;
    }

    static method FindCloseTag(s: string, tagName: string) returns (r: Option<(nat, nat)>)
      ensures r.Some? ==> FirstTurn(Hidden(tagName), s, r.value.0, r.value.1, Visible)
      ensures r.None? ==> NoTurn(Hidden(tagName), s)
    {
      for pos := 0 to |s|
        invariant forall p, e, n :: Turns(Hidden(tagName), s, p, e, n) ==> pos <= p
      {
        if s[pos] == '<' {
          var tag := ParseThinkTagAt(s, pos, true, Some(tagName));
          if tag.Some? {
            assert Turns(Hidden(tagName), s, pos, tag.value.0, Visible);
            return Some((pos, tag.value.0));
          }
        }
      }
      return None;
    }

    static method SafeEmitLen(pending: string, closing: bool) returns (safe: nat)
      ensures safe == HeldFrom(closing, pending)
    {
      var start := PartialThinkTagStart(pending, closing);
      safe := start.GetOr(|pending|);
    }

    /** Takes one more piece of model output. However the output goes on, what is emitted here
    and what the rest will give is what the whole text gives; nothing but an unfinished tag
    is held back. */
    method Feed(chunk: string) returns (out: seq<ThinkSegment>)
      requires Valid()
      modifies this
      ensures Valid()
      ensures Resumes(old(CurrentMode()), old(pending) + chunk, Stream(out), CurrentMode(), pending)
      ensures (CurrentMode(), pending) == EndOf(old(CurrentMode()), old(pending) + chunk)
      ensures pending == "" || UnfinishedTag(pending, 0, insideThink)
      ensures forall i :: 0 <= i < |out| ==> out[i].text != ""
    {
      hide Turns, FirstTurn, NoTurn, UnfinishedTag, HeldFrom, Resumes, Paint, Stream;
      pending := pending + chunk;
      out := [];
      ResumesRefl(CurrentMode(), pending);
      ghost var mode0, text0 := CurrentMode(), pending;
      while true
        invariant Valid() && Resumes(mode0, text0, Stream(out), CurrentMode(), pending)
        invariant forall i :: 0 <= i < |out| ==> out[i].text != ""
        decreases |pending|
      {
        if insideThink {
          var close := FindCloseTag(pending, tagName);
          if close.Some? {
            var (pos, end) := close.value;
            TurnEmitted(mode0, text0, Stream(out), CurrentMode(), pending, pos, end, Visible);
            var reasoning := pending[..pos];
            StreamPush(out, Reasoning(reasoning));
            if reasoning != "" {
              out := out + [Reasoning(reasoning)];
            }
            pending := pending[end..];
            insideThink := false;
          } else {
            var safe := SafeEmitLen(pending, true);
            RunEmitted(mode0, text0, Stream(out), CurrentMode(), pending, safe);
            HeldIsSettled(CurrentMode(), pending);
            StreamPush(out, Reasoning(pending[..safe]));
            if safe > 0 {
              out := out + [Reasoning(pending[..safe])];
              pending := pending[safe..];
            }
            SettledEnds(mode0, text0, Stream(out), CurrentMode(), pending);
            break;
          }
        } else {
          var open := FindOpenTag(pending);
          if open.Some? {
            var (pos, end, name) := open.value;
            TurnEmitted(mode0, text0, Stream(out), CurrentMode(), pending, pos, end, Hidden(name));
            var visible := pending[..pos];
            StreamPush(out, Token(visible));
            if visible != "" {
              out := out + [Token(visible)];
            }
            pending := pending[end..];
            tagName := name;
            insideThink := true;
          } else {
            var safe := SafeEmitLen(pending, false);
            RunEmitted(mode0, text0, Stream(out), CurrentMode(), pending, safe);
            HeldIsSettled(CurrentMode(), pending);
            StreamPush(out, Token(pending[..safe]));
            if safe > 0 {
              out := out + [Token(pending[..safe])];
              pending := pending[safe..];
            }
            SettledEnds(mode0, text0, Stream(out), CurrentMode(), pending);
            break;
          }
        }
      }
    }

    /** The stream has ended: what was held back was not a tag after all. */
    method Flush() returns (out: seq<ThinkSegment>)
      requires Valid()
      modifies this
      ensures Valid() && pending == "" && CurrentMode() == old(CurrentMode())
      ensures Stream(out) == Paint(old(CurrentMode()).Hidden?, old(pending))
      ensures forall i :: 0 <= i < |out| ==> out[i].text != ""
    {
      out := [];
      if pending != "" {
        var text := pending;
        pending := "";
        if insideThink {
          out := [Reasoning(text)];
        } else {
          out := [Token(text)];
        }
      }
    }
  }

  // ----- Whole streams -----

  function Concat(parts: seq<string>): string {
    if parts == [] then "" else Concat(parts[..|parts| - 1]) + parts[|parts| - 1]
  }

  function StreamAll(batches: seq<seq<ThinkSegment>>): seq<Glyph> {
    if batches == [] then [] else StreamAll(batches[..|batches| - 1]) + Stream(batches[|batches| - 1])
  }

  /** What has been emitted once `s` has arrived: everything but the unfinished tag at its end. */
  ghost function EmittedFor(s: string): seq<Glyph> {
    var held := |EndOf(Visible, s).1|;
    var all := Meaning(Visible, s);
    if held <= |all| then all[..|all| - held] else all
  }

  lemma {:induction false} EndingIsSuffix(mode: Mode, sc: Script)
    ensures
      var (last, held) := Ending(mode, sc);
      && |held| <= |Text(sc)| && |held| <= |Painted(mode, sc)| && Text(sc)[|Text(sc)| - |held|..] == held
      && (held == "" || UnfinishedTag(held, 0, last.Hidden?))
    decreases sc
  {
    match sc
    case Tail(run) =>
      HeldIsSettled(mode, run);
    case Block(run, tag, next, rest) =>
      EndingIsSuffix(next, rest);
  }

  /** `held` is a last piece of `s`, the beginning of a tag or nothing, and `out` lacks only it. */
  ghost predicate LacksOnly(s: string, out: seq<Glyph>, held: string, closing: bool) {
    && |held| <= |s| && s[|s| - |held|..] == held
    && (held == "" || UnfinishedTag(held, 0, closing))
    && |out| + |held| == |Meaning(Visible, s)| && out == Meaning(Visible, s)[..|out|]
  }

  /** Once `s` has arrived, everything it means has been emitted except for the beginning of a
  tag that it may end with. */
  lemma EmittedPromptly(s: string)
    ensures exists held, closing :: LacksOnly(s, EmittedFor(s), held, closing)
  {
    EndingIsSuffix(Visible, Scan(Visible, s));
    var (last, held) := EndOf(Visible, s);
    assert LacksOnly(s, EmittedFor(s), held, last.Hidden?);
  }

  lemma EmittedIs(s: string, out: seq<Glyph>, mode: Mode, held: string)
    requires Resumes(Visible, s, out, mode, held) && Settled(mode, held)
    ensures out == EmittedFor(s)
  {
    SettledEnds(Visible, s, out, mode, held);
  }

  lemma ResumesAppend(m0: Mode, s0: string, o0: seq<Glyph>, m1: Mode, s1: string, x: string)
    requires Resumes(m0, s0, o0, m1, s1)
    ensures Resumes(m0, s0 + x, o0, m1, s1 + x)
  {
    hide Meaning, EndOf;
    forall y: string
      ensures Meaning(m0, s0 + x + y) == o0 + Meaning(m1, s1 + x + y)
      ensures EndOf(m0, s0 + x + y) == EndOf(m1, s1 + x + y)
    {
      assert s0 + x + y == s0 + (x + y) && s1 + x + y == s1 + (x + y);
    }
  }

  /** One conversation step: every content delta is fed, then the filter is flushed; a batch of
  segments per delta, and one for the flush. At every moment the stream emitted so far, and
  at the end the whole stream, depend on the text alone, not on where it was cut. */
  method RouteStream(deltas: seq<string>) returns (batches: seq<seq<ThinkSegment>>)
    ensures |batches| == |deltas| + 1
    ensures forall i :: 0 <= i <= |deltas| ==> StreamAll(batches[..i]) == EmittedFor(Concat(deltas[..i]))
    ensures StreamAll(batches) == Meaning(Visible, Concat(deltas))
  {
    hide Resumes, Settled, EmittedFor, Stream, Meaning, EndOf;
    var filter := new InlineThinkFilter();
    batches := [];
    NothingYet();
    for i := 0 to |deltas|
      invariant filter.Valid() && |batches| == i && fresh(filter)
      invariant Settled(filter.CurrentMode(), filter.pending)
      invariant Resumes(Visible, Concat(deltas[..i]), StreamAll(batches), filter.CurrentMode(), filter.pending)
      invariant forall j :: 0 <= j <= i ==> StreamAll(batches[..j]) == EmittedFor(Concat(deltas[..j]))
    {
      ghost var mode, pending := filter.CurrentMode(), filter.pending;
      var out := filter.Feed(deltas[i]);
      SettledIs(filter.CurrentMode(), filter.pending);
      OneMore(deltas, batches, i, mode, pending, out, filter.CurrentMode(), filter.pending);
      batches := batches + [out];
    }
    assert deltas[..|deltas|] == deltas;
    SettledEnds(Visible, Concat(deltas), StreamAll(batches), filter.CurrentMode(), filter.pending);
    var out := filter.Flush();
    PrefixesKept(batches, out);
    batches := batches + [out];
  }

  lemma PrefixesKept(batches: seq<seq<ThinkSegment>>, out: seq<ThinkSegment>)
    ensures forall j :: 0 <= j <= |batches| ==> (batches + [out])[..j] == batches[..j]
    ensures StreamAll(batches + [out]) == StreamAll(batches) + Stream(out)
  {
    assert (batches + [out])[..|batches|] == batches;
  }

  lemma OneMore(deltas: seq<string>, batches: seq<seq<ThinkSegment>>, i: int, mode: Mode, held: string,
      out: seq<ThinkSegment>, mode': Mode, held': string)
    requires 0 <= i < |deltas| && |batches| == i && Settled(mode', held')
    requires Resumes(Visible, Concat(deltas[..i]), StreamAll(batches), mode, held)
    requires Resumes(mode, held + deltas[i], Stream(out), mode', held')
    requires forall j :: 0 <= j <= i ==> StreamAll(batches[..j]) == EmittedFor(Concat(deltas[..j]))
    ensures Resumes(Visible, Concat(deltas[..i + 1]), StreamAll(batches + [out]), mode', held')
    ensures forall j :: 0 <= j <= i + 1 ==> StreamAll((batches + [out])[..j]) == EmittedFor(Concat(deltas[..j]))
  {
    hide Resumes, Settled, EmittedFor, Stream, Meaning, EndOf;
    var text, sent := Concat(deltas[..i]), StreamAll(batches);
    ResumesAppend(Visible, text, sent, mode, held, deltas[i]);
    ResumesTrans(Visible, text + deltas[i], sent, mode, held + deltas[i], Stream(out), mode', held');
    assert deltas[..i + 1][..i] == deltas[..i];
    PrefixesKept(batches, out);
    EmittedIs(text + deltas[i], sent + Stream(out), mode', held');
    assert (batches + [out])[..i + 1] == batches + [out];
  }

  lemma NothingYet()
    ensures Resumes(Visible, Concat([]), StreamAll([]), Visible, "") && Settled(Visible, "")
    ensures StreamAll([]) == EmittedFor(Concat([]))
  {
    ResumesRefl(Visible, "");
    EmittedIs("", [], Visible, "");
  }

  lemma SettledIs(mode: Mode, s: string)
    requires s == "" || UnfinishedTag(s, 0, mode.Hidden?)
    ensures Settled(mode, s)
  {
  }

  // ----- Nothing lost, nothing doubled -----

  /** The text of the tags a reading removes. */
  function Removed(sc: Script): string {
    match sc
    case Tail(_) => ""
    case Block(_, tag, _, rest) => tag + Removed(rest)
  }

  function Characters(g: seq<Glyph>): string {
    seq(|g|, i requires 0 <= i < |g| => g[i].c)
  }

  lemma CharactersConcat(a: seq<Glyph>, b: seq<Glyph>)
    ensures Characters(a + b) == Characters(a) + Characters(b)
  {
  }

  lemma CharactersOfRun(hidden: bool, run: string)
    ensures Characters(Paint(hidden, run)) == run
  {
  }

  /** Every character of the input is emitted once or belongs to a removed tag. */
  lemma {:induction false} CharactersConserved(mode: Mode, sc: Script)
    ensures multiset(Characters(Painted(mode, sc))) + multiset(Removed(sc)) == multiset(Text(sc))
    decreases sc
  {
    hide Characters, Paint;
    CharactersOfRun(mode.Hidden?, sc.run);
    match sc
    case Tail(run) =>
    case Block(run, tag, next, rest) =>
      CharactersConserved(next, rest);
      CharactersConcat(Paint(mode.Hidden?, run), Painted(next, rest));
  }
}
