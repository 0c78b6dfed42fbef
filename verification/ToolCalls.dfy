/** Assembly of streamed tool calls: fragments of several calls arrive interleaved, in the
chat-completions shape keyed by an index, in the Responses shape keyed by an item id. */
module ToolCalls {
  import opened Options
  import opened SortedKeys

  newtype Byte = b: int | 0 <= b < 256

  /** Argument text counts in bytes. */
  type Text = seq<Byte>

  const ARGUMENTS_CAP := 65536

  datatype Buf = Buf(id: string, name: string, arguments: Text)

  const EMPTY_BUF := Buf("", "", [])

  /** A call handed to the agent loop. */
  type ToolCall = Buf

  /** Whole fragments are appended while the text so far is below the cap. */
  function Append(arguments: Text, more: Text): Text {
    if |arguments| < ARGUMENTS_CAP then arguments + more else arguments
  }

  // ----- The chat-completions loop -----

  /** One entry of a delta's `tool_calls`; a missing index means 0. */
  datatype Fragment = Fragment(index: Option<nat>, id: Option<string>, name: Option<string>, arguments: Option<Text>)

  function IndexOf(f: Fragment): nat {
    f.index.GetOr(0)
  }

  function AddFragment(b: Buf, f: Fragment): Buf {
    Buf(f.id.GetOr(b.id), f.name.GetOr(b.name),
        if f.arguments.Some? then Append(b.arguments, f.arguments.value) else b.arguments)
  }

  /** The fragments of one call, in arrival order. */
  function Project(fragments: seq<Fragment>, index: nat): seq<Fragment> {
    if fragments == [] then []
    else
      var n := |fragments| - 1;
      Project(fragments[..n], index) + (if IndexOf(fragments[n]) == index then [fragments[n]] else [])
  }

  /** The buffer that the fragments of one call alone build. */
  function Assemble(own: seq<Fragment>): Buf {
    if own == [] then EMPTY_BUF else AddFragment(Assemble(own[..|own| - 1]), own[|own| - 1])
  }

  /** The named calls of a list of buffers. */
  function Named(bufs: seq<Buf>): seq<ToolCall> {
    if bufs == [] then []
    else
      var n := |bufs| - 1;
      Named(bufs[..n]) + (if bufs[n].name != "" then [bufs[n]] else [])
  }

  function Assembled(fragments: seq<Fragment>, keys: seq<nat>): seq<Buf> {
    seq(|keys|, i requires 0 <= i < |keys| => Assemble(Project(fragments, keys[i])))
  }

  /** The indices seen, in order. */
  ghost predicate AreKeys(keys: seq<nat>, fragments: seq<Fragment>) {
    Ascending(keys) && forall k :: k in keys <==> Project(fragments, k) != []
  }

  /** Every index seen has the buffer that its own fragments build. */
  ghost predicate Buffered(tcBuf: map<nat, Buf>, fragments: seq<Fragment>) {
    && (forall k :: k in tcBuf <==> Project(fragments, k) != [])
    && (forall k :: k in tcBuf ==> tcBuf[k] == Assemble(Project(fragments, k)))
  }

  lemma ProjectPush(fragments: seq<Fragment>, f: Fragment, k: nat)
    ensures Project(fragments + [f], k) ==
      if IndexOf(f) == k then Project(fragments, k) + [f] else Project(fragments, k)
  {
    assert (fragments + [f])[..|fragments|] == fragments;
  }

  lemma BufferedPush(tcBuf: map<nat, Buf>, fragments: seq<Fragment>, f: Fragment)
    requires Buffered(tcBuf, fragments)
    ensures var idx := IndexOf(f);
      Buffered(tcBuf[idx := AddFragment(if idx in tcBuf then tcBuf[idx] else EMPTY_BUF, f)], fragments + [f])
  {
    AssemblePush(Project(fragments, IndexOf(f)), f);
    hide Assemble, Project, AddFragment, IndexOf;
    forall k: nat
      ensures Project(fragments + [f], k) ==
        if IndexOf(f) == k then Project(fragments, k) + [f] else Project(fragments, k)
    {
      ProjectPush(fragments, f, k);
    }
  }

  method CollectFragments(fragments: seq<Fragment>) returns (tcBuf: map<nat, Buf>)
    ensures Buffered(tcBuf, fragments)
  {
    tcBuf := map[];
    for i := 0 to |fragments|
      invariant Buffered(tcBuf, fragments[..i])
    {
      var f := fragments[i];
      BufferedPush(tcBuf, fragments[..i], f);
      assert fragments[..i + 1] == fragments[..i] + [f];
      var entry := if IndexOf(f) in tcBuf then tcBuf[IndexOf(f)] else EMPTY_BUF;
      if f.id.Some? {
        entry := entry.(id := f.id.value);
      }
      if f.name.Some? {
        entry := entry.(name := f.name.value);
      }
      if f.arguments.Some? {
        if |entry.arguments| < ARGUMENTS_CAP {
          entry := entry.(arguments := entry.arguments + f.arguments.value);
        }
      }
      tcBuf := tcBuf[IndexOf(f) := entry];
    }
    assert fragments[..|fragments|] == fragments;
  }

  /** Streams fragments into per-index buffers and hands the named calls out in index order. */
  method AssembleCalls(fragments: seq<Fragment>) returns (calls: seq<ToolCall>)
    ensures exists keys :: AreKeys(keys, fragments) && calls == Named(Assembled(fragments, keys))
  {
    var tcBuf := CollectFragments(fragments);
    hide Named, Assembled, Assemble, Project;
    calls := [];
    ghost var keys := [];
    NoneNamed(fragments);
    var left := tcBuf.Keys;
    while left != {}
      invariant left <= tcBuf.Keys && Ascending(keys)
      invariant forall k :: k in keys <==> k in tcBuf && k !in left
      invariant forall k, x :: k in keys && x in left ==> k < x
      invariant calls == Named(Assembled(fragments, keys))
      decreases |left|
    {
      var k := SmallestKey(left);
      left := left - {k};
      AssembledPush(fragments, keys, k);
      AscendingPush(keys, k);
      keys := keys + [k];
      if tcBuf[k].name != "" {
        calls := calls + [tcBuf[k]];
      }
    }
    assert AreKeys(keys, fragments);
  }

  lemma NoneNamed(fragments: seq<Fragment>)
    ensures Named(Assembled(fragments, [])) == []
  {
  }

  lemma AssemblePush(own: seq<Fragment>, f: Fragment)
    ensures Assemble(own + [f]) == AddFragment(Assemble(own), f)
    ensures own == [] ==> Assemble(own) == EMPTY_BUF
  {
    assert (own + [f])[..|own|] == own;
  }

  lemma AssembledPush(fragments: seq<Fragment>, keys: seq<nat>, k: nat)
    ensures var b := Assemble(Project(fragments, k));
      Named(Assembled(fragments, keys + [k])) == Named(Assembled(fragments, keys)) + (if b.name != "" then [b] else [])
  {
    hide Assemble, Project;
    assert Assembled(fragments, keys + [k])[..|keys|] == Assembled(fragments, keys);
  }

  /** The calls depend only on each index's fragments in arrival order, not on how the
  fragments of different calls are interleaved. */
  lemma InterleavingIndependent(f: seq<Fragment>, g: seq<Fragment>, keysF: seq<nat>, keysG: seq<nat>)
    requires forall k :: Project(f, k) == Project(g, k)
    requires AreKeys(keysF, f) && AreKeys(keysG, g)
    ensures Named(Assembled(f, keysF)) == Named(Assembled(g, keysG))
  {
    AscendingUnique(keysF, keysG);
    assert Assembled(f, keysF) == Assembled(g, keysG);
  }

  // ----- Which fragments belong together -----

  /** The fragment says that it belongs to call `k`, or says nothing and `k` is 0. */
  predicate BelongsTo(f: Fragment, k: nat) {
    f.index == Some(k) || (f.index.None? && k == 0)
  }

  /** The fragments of call `k` are those that belong to it, each as often as it arrived and in
  arrival order: `at` are their positions. */
  lemma {:induction false} OwnFragments(fragments: seq<Fragment>, k: nat) returns (at: seq<nat>)
    ensures PickedAt(fragments, at, Project(fragments, k))
    ensures forall j :: 0 <= j < |fragments| ==> (Has(at, j) <==> BelongsTo(fragments[j], k))
  {
    at := [];
    if fragments != [] {
      var n := |fragments| - 1;
      var own, take := Project(fragments[..n], k), BelongsTo(fragments[n], k);
      assert Project(fragments, k) == if take then own + [fragments[n]] else own;
      hide PickedAt, Has, Project, BelongsTo;
      var earlier := OwnFragments(fragments[..n], k);
      at := PickOneMore(fragments, earlier, own, take);
      forall j | 0 <= j < |fragments| ensures Has(at, j) <==> BelongsTo(fragments[j], k) {
        if j < n { assert Has(earlier, j) <==> BelongsTo(fragments[..n][j], k); }
      }
    }
  }

  /** A fragment is among those of call `k` exactly when it arrived and belongs to it. */
  lemma OwnMembers(fragments: seq<Fragment>, k: nat, f: Fragment)
    ensures f in Project(fragments, k) <==> f in fragments && BelongsTo(f, k)
  {
    var at := OwnFragments(fragments, k);
    if f in Project(fragments, k) {
      var i :| 0 <= i < |at| && Project(fragments, k)[i] == f;
      assert Has(at, at[i]);
    }
    if f in fragments && BelongsTo(f, k) {
      var j: nat :| j < |fragments| && fragments[j] == f;
      var i :| 0 <= i < |at| && at[i] == j;
      assert Project(fragments, k)[i] == f;
    }
  }

  /** Fragments of different indices never reach the same buffer; one without an index goes
  with those of index 0. */
  lemma IndicesApart(fragments: seq<Fragment>, f: Fragment, g: Fragment, k: nat)
    requires f in Project(fragments, k) && g in Project(fragments, k)
    ensures f.index.GetOr(0) == g.index.GetOr(0) == k
    ensures f.index.Some? && g.index.Some? ==> f.index == g.index
  {
    OwnMembers(fragments, k, f);
    OwnMembers(fragments, k, g);
  }

  predicate HasName(b: Buf) {
    b.name != ""
  }

  /** The named buffers of a list, each as often as it stands there and in order. */
  lemma {:induction false} NamedOnes(bufs: seq<Buf>) returns (at: seq<nat>)
    ensures PickedAt(bufs, at, Named(bufs))
    ensures forall j :: 0 <= j < |bufs| ==> (Has(at, j) <==> HasName(bufs[j]))
  {
    at := [];
    if bufs != [] {
      var n := |bufs| - 1;
      var before, take := Named(bufs[..n]), HasName(bufs[n]);
      assert Named(bufs) == if take then before + [bufs[n]] else before;
      hide PickedAt, Has, Named, HasName;
      var earlier := NamedOnes(bufs[..n]);
      at := PickOneMore(bufs, earlier, before, take);
      forall j | 0 <= j < |bufs| ensures Has(at, j) <==> HasName(bufs[j]) {
        if j < n { assert Has(earlier, j) <==> HasName(bufs[..n][j]); }
      }
    }
  }

  /** One call per index seen whose fragments name one, in index order, built from the fragments
  that belong to it. `keys` and `at` say which call has which index. */
  lemma CallsByIndex(fragments: seq<Fragment>, keys: seq<nat>) returns (at: seq<nat>)
    requires AreKeys(keys, fragments)
    ensures forall k: nat :: k in keys <==> exists j :: 0 <= j < |fragments| && BelongsTo(fragments[j], k)
    ensures Ascending(at) && |at| == |Named(Assembled(fragments, keys))|
    ensures forall i :: 0 <= i < |at| ==>
      at[i] < |keys| && Named(Assembled(fragments, keys))[i] == Assemble(Project(fragments, keys[at[i]]))
    ensures forall j :: 0 <= j < |keys| ==> (Has(at, j) <==> Assemble(Project(fragments, keys[j])).name != "")
  {
    forall k: nat
      ensures k in keys <==> exists j :: 0 <= j < |fragments| && BelongsTo(fragments[j], k)
    {
      SomeOwn(fragments, k);
    }
    at := NamedOnes(Assembled(fragments, keys));
  }

  lemma SomeOwn(fragments: seq<Fragment>, k: nat)
    ensures Project(fragments, k) != [] <==> exists j :: 0 <= j < |fragments| && BelongsTo(fragments[j], k)
  {
    if Project(fragments, k) != [] {
      OwnMembers(fragments, k, Project(fragments, k)[0]);
    }
    if j :| 0 <= j < |fragments| && BelongsTo(fragments[j], k) {
      OwnMembers(fragments, k, fragments[j]);
    }
  }

  /** What one fragment changes: what it does not carry stays; argument text is taken, whole,
  below 65536 bytes and not at all from there on. */
  lemma OneFragment(own: seq<Fragment>, f: Fragment)
    ensures
      var b, b' := Assemble(own), Assemble(own + [f]);
      && (f.id.None? ==> b'.id == b.id) && (f.id.Some? ==> b'.id == f.id.value)
      && (f.name.None? ==> b'.name == b.name) && (f.name.Some? ==> b'.name == f.name.value)
      && (f.arguments.None? || |b.arguments| >= 65536 ==> b'.arguments == b.arguments)
      && (f.arguments.Some? && |b.arguments| < 65536 ==> b'.arguments == b.arguments + f.arguments.value)
    ensures Assemble([]) == Buf("", "", [])
  {
    AssemblePush(own, f);
  }

  /** The latest id that was sent counts, and so does the latest name. */
  lemma {:induction false} LatestIdWins(own: seq<Fragment>, i: nat)
    requires i <= |own|
    requires forall j :: i < j < |own| ==> own[j].id.None?
    ensures i < |own| && own[i].id.Some? ==> Assemble(own).id == own[i].id.value
    ensures (forall j :: 0 <= j < |own| ==> own[j].id.None?) ==> Assemble(own).id == ""
  {
    if own != [] && i < |own| - 1 {
      LatestIdWins(own[..|own| - 1], i);
    } else if own != [] {
      LatestIdWins(own[..|own| - 1], |own| - 1);
    }
  }

  lemma {:induction false} LatestNameWins(own: seq<Fragment>, i: nat)
    requires i <= |own|
    requires forall j :: i < j < |own| ==> own[j].name.None?
    ensures i < |own| && own[i].name.Some? ==> Assemble(own).name == own[i].name.value
    ensures (forall j :: 0 <= j < |own| ==> own[j].name.None?) ==> Assemble(own).name == ""
  {
    if own != [] && i < |own| - 1 {
      LatestNameWins(own[..|own| - 1], i);
    } else if own != [] {
      LatestNameWins(own[..|own| - 1], |own| - 1);
    }
  }

  // ----- What the cap does -----

  /** The argument texts of one call's fragments, put together. */
  function Full(own: seq<Fragment>): Text {
    if own == [] then [] else Full(own[..|own| - 1]) + own[|own| - 1].arguments.GetOr([])
  }

  /** The assembled arguments are those of the first `k` fragments, where `k` is the first
  point at which the cap is reached. */
  lemma {:induction false} ArgumentsArePrefix(own: seq<Fragment>) returns (k: nat)
    ensures k <= |own| && Assemble(own).arguments == Full(own[..k])
    ensures k < |own| ==> |Full(own[..k])| >= ARGUMENTS_CAP
    ensures forall j :: 0 <= j < k ==> |Full(own[..j])| < ARGUMENTS_CAP
  {
    if own == [] {
      k := 0;
    } else {
      var n := |own| - 1;
      k := ArgumentsArePrefix(own[..n]);
      assert own[..n][..k] == own[..k];
      assert forall j :: 0 <= j <= n ==> own[..n][..j] == own[..j];
      if k == n && |Full(own[..n])| < ARGUMENTS_CAP {
        k := n + 1;
        assert own[..n + 1] == own;
      }
    }
  }

  lemma {:induction false} FullGrows(own: seq<Fragment>, k: nat)
    requires k <= |own|
    ensures Full(own[..k]) <= Full(own)
  {
    if k < |own| {
      var n := |own| - 1;
      FullGrows(own[..n], k);
      assert own[..n][..k] == own[..k];
    } else {
      assert own[..k] == own;
    }
  }

  lemma {:induction false} FullTail(own: seq<Fragment>, k: nat)
    requires k <= |own|
    ensures Full(own) == Full(own[..k]) <==> forall j :: k <= j < |own| ==> own[j].arguments.GetOr([]) == []
  {
    if k == |own| {
      assert own[..k] == own;
    } else {
      var n := |own| - 1;
      assert own[..n][..k] == own[..k];
      FullTail(own[..n], k);
      FullGrows(own[..n], k);
      assert forall j :: 0 <= j < n ==> own[..n][j] == own[j];
      if own[n].arguments.GetOr([]) == [] {
        assert Full(own) == Full(own[..n]);
      } else {
        assert |Full(own)| > |Full(own[..k])|;
      }
    }
  }

  /** The arguments are a prefix of the full text, and nothing is cut off exactly when no
  fragment with text arrives once the cap is reached. */
  lemma ArgumentsComplete(own: seq<Fragment>)
    ensures Assemble(own).arguments <= Full(own)
    ensures Assemble(own).arguments == Full(own) <==>
      forall j :: 0 <= j < |own| && |Full(own[..j])| >= ARGUMENTS_CAP ==> own[j].arguments.GetOr([]) == []
    ensures |Full(own)| < ARGUMENTS_CAP ==> Assemble(own).arguments == Full(own)
  {
    var k := ArgumentsArePrefix(own);
    FullGrows(own, k);
    FullTail(own, k);
    forall j | k <= j < |own| ensures |Full(own[..j])| >= ARGUMENTS_CAP {
      FullGrows(own[..j], k);
      assert own[..j][..k] == own[..k];
    }
    assert own[..|own|] == own;
    hide Full, Assemble;
  }
}
