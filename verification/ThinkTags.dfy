/** Recognition of inline `<think>` / `<thinking>` tags.

The grammar of a tag is the predicate `TagAt`; the three recognisers of the client
(whole tag, tag name, unfinished tag) are methods proved against it. */
module ThinkTags {
  import opened Options

  /** Order matters to the code: the longer name is tried first. */
  const TAG_NAMES: seq<string> := ["thinking", "think"]

  predicate IsSpace(c: char) {
    c == ' ' || c == '\t' || c == '\n' || c == '\r' || c == '\U{000C}'
  }

  function Lower(c: char): char {
    if 'A' <= c <= 'Z' then (c as int + 32) as char else c
  }

  predicate EqIgnoreCase(a: string, b: string) {
    |a| == |b| && forall k :: 0 <= k < |a| ==> Lower(a[k]) == Lower(b[k])
  }

  // ----- Grammar -----

  ghost predicate Spaces(s: string, i: int, j: int) {
    0 <= i <= j <= |s| && forall k :: i <= k < j ==> IsSpace(s[k])
  }

  /** The first `count` letters of `name`, in any case, stand at `i`. */
  ghost predicate LettersAt(s: string, i: int, name: string, count: int) {
    0 <= i && 0 <= count <= |name| && i + count <= |s| &&
    forall k :: 0 <= k < count ==> Lower(s[i + k]) == name[k]
  }

  /** `s[start..end]` is a tag whose spaces after `<` end at `m` and whose name begins at `n`. */
  ghost predicate TagSpan(s: string, start: int, m: int, n: int, end: int, closing: bool, name: string) {
    && name in TAG_NAMES
    && 0 <= start < m <= n && n + |name| < end <= |s|
    && s[start] == '<'
    && Spaces(s, start + 1, m)
    && (if closing then m < n && s[m] == '/' && Spaces(s, m + 1, n) else m == n)
    && LettersAt(s, n, name, |name|)
    && Spaces(s, n + |name|, end - 1)
    && s[end - 1] == '>'
  }

  ghost predicate TagAt(s: string, start: int, end: int, closing: bool, name: string) {
    exists m, n :: TagSpan(s, start, m, n, end, closing, name)
  }

  ghost predicate IsTag(t: string, closing: bool, name: string) {
    TagAt(t, 0, |t|, closing, name)
  }

  /** Some further text turns `s[pos..]` into a tag, and `s[pos..]` is not one already. */
  ghost predicate UnfinishedTag(s: string, pos: int, closing: bool) {
    0 <= pos < |s| &&
    exists ext: string, name :: ext != "" && TagAt(s + ext, pos, |s + ext|, closing, name)
  }

  // ----- Facts about the grammar -----

  lemma NameLetters(s: string, i: int, name: string, count: int, k: int)
    requires name in TAG_NAMES && LettersAt(s, i, name, count) && i <= k < i + count
    ensures !IsSpace(s[k]) && s[k] != '<' && s[k] != '>' && s[k] != '/'
  {
    assert Lower(s[i + (k - i)]) == name[k - i];
  }

  /** A tag holds one `<`, its first character, and one `>`, its last. */
  lemma TagBrackets(s: string, start: int, end: int, closing: bool, name: string, k: int)
    requires TagAt(s, start, end, closing, name) && start <= k < end
    ensures s[k] == '<' <==> k == start
    ensures s[k] == '>' <==> k == end - 1
  {
    var m, n :| TagSpan(s, start, m, n, end, closing, name);
    if n <= k < n + |name| {
      NameLetters(s, n, name, |name|, k);
    }
  }

  /** A name of `TAG_NAMES` stands at `start` and is followed by `>` or a space. */
  ghost predicate EndedName(s: string, start: int, name: string) {
    && name in TAG_NAMES && LettersAt(s, start, name, |name|)
    && start + |name| < |s| && (s[start + |name|] == '>' || IsSpace(s[start + |name|]))
  }

  /** One name is a prefix of the other; what ends the name tells them apart. */
  lemma NameUnique(s: string, n: int, name: string, name': string)
    requires EndedName(s, n, name) && EndedName(s, n, name')
    ensures name == name'
  {
    if |name| < |name'| {
      NameLetters(s, n, name', |name'|, n + |name|);
    } else if |name'| < |name| {
      NameLetters(s, n, name, |name|, n + |name'|);
    }
  }

  /** Skipping spaces and the slash leads to the name of any tag at `start`. */
  lemma NameIsFound(s: string, start: int, m: int, n: int, end: int, closing: bool, name: string)
    requires TagAt(s, start, end, closing, name)
    requires Spaces(s, start + 1, m) && (m < |s| ==> !IsSpace(s[m]))
    requires if closing && m < |s| && s[m] == '/' then Spaces(s, m + 1, n) && (n < |s| ==> !IsSpace(s[n])) else n == m
    ensures m < |s| && (closing <==> s[m] == '/') && EndedName(s, n, name)
    ensures Spaces(s, n + |name|, end - 1) && s[end - 1] == '>'
  {
    var m', n' :| TagSpan(s, start, m', n', end, closing, name);
    NameLetters(s, n', name, |name|, n');
    assert m' == m && n' == n;
  }

  /** At one position there is at most one opening tag and at most one closing tag. */
  lemma TagUnique(s: string, start: int, end: int, end': int, closing: bool, name: string, name': string)
    requires TagAt(s, start, end, closing, name) && TagAt(s, start, end', closing, name')
    ensures end == end' && name == name'
  {
    var m, n :| TagSpan(s, start, m, n, end, closing, name);
    NameLetters(s, n, name, |name|, n);
    NameIsFound(s, start, m, n, end, closing, name);
    NameIsFound(s, start, m, n, end', closing, name');
    NameUnique(s, n, name, name');
  }

  // ----- The grammar, character by character -----

  /** A run of the five spaces. */
  ghost predicate Blank(w: string) {
    forall k :: 0 <= k < |w| ==> w[k] == ' ' || w[k] == '\t' || w[k] == '\n' || w[k] == '\r' || w[k] == '\U{000C}'
  }

  /** `word` is spelled by small or capital letters. */
  ghost predicate Spelled(word: string, small: string, capital: string)
    requires |small| == |capital|
  {
    |word| == |small| && forall k :: 0 <= k < |word| ==> word[k] == small[k] || word[k] == capital[k]
  }

  ghost predicate SpelledName(word: string, name: string) {
    || (name == "think" && Spelled(word, "think", "THINK"))
    || (name == "thinking" && Spelled(word, "thinking", "THINKING"))
  }

  ghost predicate Written(t: string, closing: bool, name: string, w1: string, w2: string, word: string, w3: string) {
    && Blank(w1) && Blank(w2) && Blank(w3) && SpelledName(word, name)
    && t == "<" + w1 + (if closing then "/" + w2 else "") + word + w3 + ">"
  }

  lemma LetterCase(c: char, small: char, capital: char)
    requires 'a' <= small <= 'z' && capital as int + 32 == small as int
    ensures Lower(c) == small <==> c == small || c == capital
  {
  }

  lemma NameSpelled(s: string, n: int, name: string)
    requires 0 <= n && n + |name| <= |s|
    ensures name in TAG_NAMES && LettersAt(s, n, name, |name|) <==> SpelledName(s[n..n + |name|], name)
  {
    var word := s[n..n + |name|];
    forall k | 0 <= k < |name| && (name == "think" || name == "thinking")
      ensures Lower(s[n + k]) == name[k] <==> word[k] == name[k] || word[k] == "THINKING"[k]
    {
      assert name[k] == "thinking"[k] && "THINKING"[k] as int + 32 == "thinking"[k] as int;
      LetterCase(s[n + k], name[k], "THINKING"[k]);
    }
    assert "THINKING"[..5] == "THINK";
  }

  lemma Pieces(t: string, i: int, j: int, k: int)
    requires 0 <= i <= j <= k <= |t|
    ensures t[i..k] == t[i..j] + t[j..k]
  {
  }

  /** What stands before the name of a tag. */
  lemma HeadIsWritten(t: string, m: int, n: int, closing: bool)
    requires 1 <= m <= n <= |t| && t[0] == '<'
    requires if closing then m < n && t[m] == '/' else m == n
    ensures t[..n] == "<" + t[1..m] + (if closing then "/" + t[m + 1..n] else "")
  {
    Pieces(t, 0, 1, m);
    Pieces(t, 0, m, n);
    if closing { Pieces(t, m, m + 1, n); }
  }

  lemma SpacesAreBlank(t: string, i: int, j: int)
    requires Spaces(t, i, j)
    ensures Blank(t[i..j])
  {
  }

  lemma TagIsWritten(t: string, m: int, n: int, closing: bool, name: string)
    requires TagSpan(t, 0, m, n, |t|, closing, name)
    ensures exists w1, w2, word, w3 :: Written(t, closing, name, w1, w2, word, w3)
  {
    NameSpelled(t, n, name);
    HeadIsWritten(t, m, n, closing);
    SpacesAreBlank(t, 1, m);
    if closing { SpacesAreBlank(t, m + 1, n); }
    SpacesAreBlank(t, n + |name|, |t| - 1);
    assert Blank("");
    var w1, w2 := t[1..m], if closing then t[m + 1..n] else "";
    var e := n + |name|;
    var word, w3 := t[n..e], t[e..|t| - 1];
    hide LettersAt, SpelledName, Spaces, Blank;
    Pieces(t, 0, n, e);
    Pieces(t, 0, e, |t| - 1);
    Pieces(t, 0, |t| - 1, |t|);
    assert t[|t| - 1..|t|] == ">" && t[0..|t|] == t;
    assert t == t[0..n] + word + w3 + ">";
    assert t[0..n] == t[..n];
    assert Written(t, closing, name, w1, w2, word, w3);
  }

  /** Where the parts of a written tag stand. */
  lemma PartsStand(head: string, word: string, w3: string)
    ensures
      var t, n, e := head + word + w3 + ">", |head|, |head + word|;
      && t[..n] == head && t[n..e] == word && t[e..|t| - 1] == w3 && t[|t| - 1] == '>' && |t| == e + |w3| + 1
  {
  }

  lemma HeadStands(w1: string, w2: string, closing: bool)
    requires Blank(w1) && Blank(w2)
    ensures
      var head, m := "<" + w1 + (if closing then "/" + w2 else ""), 1 + |w1|;
      && head[0] == '<' && Spaces(head, 1, m) && m <= |head|
      && (if closing then m < |head| && head[m] == '/' && Spaces(head, m + 1, |head|) else m == |head|)
  {
  }

  lemma WrittenIsTag(t: string, closing: bool, name: string, w1: string, w2: string, word: string, w3: string)
    requires Written(t, closing, name, w1, w2, word, w3)
    ensures IsTag(t, closing, name)
  {
    var head := "<" + w1 + (if closing then "/" + w2 else "");
    var m, n, e := 1 + |w1|, |head|, |head + word|;
    HeadStands(w1, w2, closing);
    PartsStand(head, word, w3);
    NameSpelled(t, n, name);
    hide SpelledName, LettersAt;
    assert forall k :: 0 <= k < n ==> t[k] == t[..n][k];
    assert forall k :: e <= k < |t| - 1 ==> t[k] == t[e..|t| - 1][k - e];
    assert TagSpan(t, 0, m, n, |t|, closing, name);
  }

  /** A tag is `<`, spaces, for a closer a slash and spaces, `think` or `thinking` in small or
  capital letters, spaces and `>`; the word names the tag. */
  lemma TagWritten(t: string, closing: bool, name: string)
    ensures IsTag(t, closing, name) <==> exists w1, w2, word, w3 :: Written(t, closing, name, w1, w2, word, w3)
  {
    if IsTag(t, closing, name) {
      var m, n :| TagSpan(t, 0, m, n, |t|, closing, name);
      TagIsWritten(t, m, n, closing, name);
    }
    if w1, w2, word, w3 :| Written(t, closing, name, w1, w2, word, w3) {
      WrittenIsTag(t, closing, name, w1, w2, word, w3);
    }
  }

  /** Being a tag depends on the tag's own characters only. */
  lemma TagMoves(s: string, s': string, d: int, start: int, end: int, closing: bool, name: string)
    requires TagAt(s, start, end, closing, name)
    requires 0 <= start - d && end - d <= |s'| && s[start..end] == s'[start - d..end - d]
    ensures TagAt(s', start - d, end - d, closing, name)
  {
    var m, n :| TagSpan(s, start, m, n, end, closing, name);
    forall k | start <= k < end ensures s'[k - d] == s[k] {
      assert s[start..end][k - start] == s'[start - d..end - d][k - start];
    }
    forall k | 0 <= k < |name| ensures Lower(s'[n - d + k]) == name[k] {
      assert s'[n + k - d] == s[n + k];
    }
    forall k | start - d <= k < end - d ensures s'[k] == s[k + d] {
      assert s'[k + d - d] == s[k + d];
    }
    assert TagSpan(s', start - d, m - d, n - d, end - d, closing, name);
  }

  /** An unfinished tag starts at the last `<` and has no `>`. */
  lemma UnfinishedIsLast(s: string, pos: int, closing: bool, k: int)
    requires UnfinishedTag(s, pos, closing) && pos <= k < |s|
    ensures s[k] == '<' <==> k == pos
    ensures s[k] != '>'
  {
    var ext: string, name :| ext != "" && TagAt(s + ext, pos, |s + ext|, closing, name);
    TagBrackets(s + ext, pos, |s + ext|, closing, name, k);
  }

  /** A tag of `p + x` that starts in `p` and does not end there is unfinished in `p`. */
  lemma StraddlerIsUnfinished(p: string, x: string, pos: int, end: int, closing: bool, name: string)
    requires TagAt(p + x, pos, end, closing, name) && 0 <= pos < |p| < end
    ensures UnfinishedTag(p, pos, closing)
  {
    var ext := x[..end - |p|];
    assert p + ext == (p + x)[..end];
    TagMoves(p + x, p + ext, 0, pos, end, closing, name);
  }

  lemma UnfinishedIn(s: string, pos: int, ext: string, closing: bool, name: string)
    requires 0 <= pos < |s| && ext != "" && TagAt(s + ext, pos, |s + ext|, closing, name)
    ensures UnfinishedTag(s, pos, closing)
  {
  }

  lemma UnfinishedMoves(s: string, pos: int, closing: bool)
    requires 0 <= pos < |s|
    ensures UnfinishedTag(s, pos, closing) <==> UnfinishedTag(s[pos..], 0, closing)
  {
    var t := s[pos..];
    if UnfinishedTag(s, pos, closing) {
      var ext: string, name :| ext != "" && TagAt(s + ext, pos, |s + ext|, closing, name);
      TagMoves(s + ext, t + ext, pos, pos, |s + ext|, closing, name);
      assert |s + ext| - pos == |t + ext|;
      UnfinishedIn(t, 0, ext, closing, name);
    }
    if UnfinishedTag(t, 0, closing) {
      var ext: string, name :| ext != "" && TagAt(t + ext, 0, |t + ext|, closing, name);
      assert (s + ext)[pos..|s + ext|] == t + ext == (t + ext)[0..|t + ext|];
      TagMoves(t + ext, s + ext, -pos, 0, |t + ext|, closing, name);
      assert |t + ext| + pos == |s + ext|;
      UnfinishedIn(s, pos, ext, closing, name);
    }
  }

  // ----- The shape of unfinished tags, as the recogniser tests it -----

  /** What may follow the spaces and slash: the start of a name, or the name and spaces. */
  ghost predicate NameBegunBy(t: string, n: int, name: string) {
    || LettersAt(t, n, name, |t| - n)
    || (LettersAt(t, n, name, |name|) && Spaces(t, n + |name|, |t|))
  }

  ghost predicate NameBegun(t: string, n: int) {
    0 <= n <= |t| && exists name :: name in TAG_NAMES && NameBegunBy(t, n, name)
  }

  ghost predicate TagBegun(t: string, m: int, n: int, closing: bool) {
    && 1 <= m <= n <= |t| && t[0] == '<' && Spaces(t, 1, m)
    && (if closing then m < n && t[m] == '/' && Spaces(t, m + 1, n) else m == n)
    && NameBegun(t, n)
  }

  ghost predicate UnfinishedShape(t: string, closing: bool) {
    (|t| > 0 && t[0] == '<' && Spaces(t, 1, |t|)) || exists m, n :: TagBegun(t, m, n, closing)
  }

  lemma ShapeFromUnfinished(t: string, closing: bool)
    requires UnfinishedTag(t, 0, closing)
    ensures UnfinishedShape(t, closing)
  {
    var ext: string, name :| ext != "" && TagAt(t + ext, 0, |t + ext|, closing, name);
    var u := t + ext;
    var m, n :| TagSpan(u, 0, m, n, |u|, closing, name);
    assert forall k :: 0 <= k < |t| ==> u[k] == t[k];
    if |t| <= m {
      assert Spaces(t, 1, |t|);
    } else if |t| < n {
      assert Spaces(t, m + 1, |t|);
      assert LettersAt(t, |t|, name, 0);
      assert TagBegun(t, m, |t|, closing);
    } else {
      forall k | 0 <= k < |name| && n + k < |t| ensures Lower(t[n + k]) == name[k] {
        assert u[n + k] == t[n + k];
      }
      assert NameBegun(t, n);
      assert TagBegun(t, m, n, closing);
    }
  }

  lemma SpacesAreUnfinished(t: string, closing: bool)
    requires |t| > 0 && t[0] == '<' && Spaces(t, 1, |t|)
    ensures UnfinishedTag(t, 0, closing)
  {
    var ext := if closing then "/think>" else "think>";
    var n := if closing then |t| + 1 else |t|;
    var u := t + ext;
    forall k | 0 <= k < 5 ensures Lower(u[n + k]) == "think"[k] {
      assert u[n + k] == ext[n + k - |t|];
    }
    assert TagSpan(u, 0, |t|, n, |u|, closing, "think");
    UnfinishedIn(t, 0, ext, closing, "think");
  }

  lemma NameIsLower(name: string, k: int)
    requires name in TAG_NAMES && 0 <= k < |name|
    ensures Lower(name[k]) == name[k]
  {
  }

  lemma LettersThenRest(t: string, n: int, name: string)
    requires name in TAG_NAMES && LettersAt(t, n, name, |t| - n)
    ensures LettersAt(t + (name[|t| - n..] + ">"), n, name, |name|)
  {
    var begun := |t| - n;
    var ext := name[begun..] + ">";
    forall k | 0 <= k < |name| ensures Lower((t + ext)[n + k]) == name[k] {
      if k < begun {
        assert (t + ext)[n + k] == t[n + k];
      } else {
        assert (t + ext)[n + k] == ext[k - begun] == name[k];
        NameIsLower(name, k);
      }
    }
  }

  lemma BegunIsUnfinished(t: string, m: int, n: int, closing: bool)
    requires TagBegun(t, m, n, closing)
    ensures UnfinishedTag(t, 0, closing)
  {
    var name :| name in TAG_NAMES && NameBegunBy(t, n, name);
    if LettersAt(t, n, name, |t| - n) {
      var ext := name[|t| - n..] + ">";
      LettersThenRest(t, n, name);
      TagFromParts(t, ext, m, n, closing, name);
    } else {
      assert LettersAt(t + ">", n, name, |name|);
      TagFromParts(t, ">", m, n, closing, name);
    }
  }

  lemma TagFromParts(t: string, ext: string, m: int, n: int, closing: bool, name: string)
    requires name in TAG_NAMES && TagBegun(t, m, n, closing) && ext != ""
    requires LettersAt(t + ext, n, name, |name|)
    requires Spaces(t + ext, n + |name|, |t + ext| - 1) && ext[|ext| - 1] == '>'
    ensures UnfinishedTag(t, 0, closing)
  {
    assert TagSpan(t + ext, 0, m, n, |t + ext|, closing, name);
    UnfinishedIn(t, 0, ext, closing, name);
  }

  lemma UnfinishedIffShape(t: string, closing: bool)
    ensures UnfinishedTag(t, 0, closing) <==> UnfinishedShape(t, closing)
  {
    if UnfinishedTag(t, 0, closing) {
      ShapeFromUnfinished(t, closing);
    }
    if UnfinishedShape(t, closing) {
      if |t| > 0 && t[0] == '<' && Spaces(t, 1, |t|) {
        SpacesAreUnfinished(t, closing);
      } else {
        var m, n :| TagBegun(t, m, n, closing);
        BegunIsUnfinished(t, m, n, closing);
      }
    }
  }

  lemma NameBegunLetter(t: string, n: int)
    requires NameBegun(t, n) && n < |t|
    ensures !IsSpace(t[n]) && t[n] != '/'
  {
    var name :| name in TAG_NAMES && NameBegunBy(t, n, name);
    NameLetters(t, n, name, if LettersAt(t, n, name, |name|) then |name| else |t| - n, n);
  }

  /** Once the spaces and the slash are skipped, the shape is settled by what follows. */
  lemma ShapeAfter(t: string, m: int, n: int, closing: bool)
    requires 1 <= m < |t| && m <= n <= |t| && t[0] == '<' && Spaces(t, 1, m)
    requires !IsSpace(t[m]) && (n < |t| ==> !IsSpace(t[n]))
    requires closing && t[m] == '/' ==> m < n && Spaces(t, m + 1, n)
    requires !closing || t[m] != '/' ==> n == m
    ensures UnfinishedShape(t, closing) <==> (closing <==> t[m] == '/') && NameBegun(t, n)
  {
    forall m', n' | TagBegun(t, m', n', closing)
      ensures m' == m && n' == n && (closing <==> t[m] == '/')
    {
      if n' < |t| { NameBegunLetter(t, n'); }
    }
    if (closing <==> t[m] == '/') && NameBegun(t, n) {
      assert TagBegun(t, m, n, closing);
    }
  }

  // ----- The recognisers -----

  method SkipAsciiWhitespace(s: string, start: nat) returns (i: nat)
    requires start <= |s|
    ensures start <= i && Spaces(s, start, i)
    ensures i < |s| ==> !IsSpace(s[i])
  {
    i := start;
    while i < |s| && IsSpace(s[i])
      invariant start <= i && Spaces(s, start, i)
    {
      i := i + 1;
    }
  }

  method ParseThinkTagName(s: string, start: nat) returns (r: Option<(string, nat)>)
    requires start <= |s|
    ensures r.Some? ==> EndedName(s, start, r.value.0) && r.value.1 == start + |r.value.0|
    ensures r.None? ==> forall name :: !EndedName(s, start, name)
  {
    for j := 0 to |TAG_NAMES|
      invariant forall i :: 0 <= i < j ==> !EndedName(s, start, TAG_NAMES[i])
    {
      var name := TAG_NAMES[j];
      if |s| < start + |name| {
        continue;
      }
      var next := start + |name|;
      assert forall k :: 0 <= k < |name| ==> s[start..next][k] == s[start + k] && Lower(name[k]) == name[k];
      if EqIgnoreCase(s[start..next], name) {
        if next < |s| && (s[next] == '>' || IsSpace(s[next])) {
          return Some((name, next));
        }
      }
    }
    return None;
  }

  method ParseThinkTagAt(s: string, start: nat, closing: bool, expected: Option<string>)
    returns (r: Option<(nat, string)>)
    ensures r.Some? ==> TagAt(s, start, r.value.0, closing, r.value.1) && expected.GetOr(r.value.1) == r.value.1
    ensures r.None? ==> forall end, name :: TagAt(s, start, end, closing, name) ==> expected.GetOr(name) != name
  {
    if |s| <= start || s[start] != '<' {
      return None;
    }
    var m := SkipAsciiWhitespace(s, start + 1);
    var i := m;
    if closing && m < |s| && s[m] == '/' {
      i := SkipAsciiWhitespace(s, m + 1);
    }
    forall end, name | TagAt(s, start, end, closing, name)
      ensures m < |s| && (closing <==> s[m] == '/') && EndedName(s, i, name)
      ensures Spaces(s, i + |name|, end - 1) && s[end - 1] == '>'
    {
      NameIsFound(s, start, m, i, end, closing, name);
    }
    if closing != (m < |s| && s[m] == '/') {
      return None;
    }
    var parsed := ParseThinkTagName(s, i);
    if parsed.None? {
      return None;
    }
    var (name, next) := parsed.value;
    forall name' | EndedName(s, i, name') ensures name' == name {
      NameUnique(s, i, name, name');
    }
    if expected.Some? && name != expected.value {
      return None;
    }
    var e := SkipAsciiWhitespace(s, next);
    if |s| <= e || s[e] != '>' {
      return None;
    }
    assert TagSpan(s, start, m, i, e + 1, closing, name);
    return Some((e + 1, name));
  }

  /** `str::rfind` of one character. */
  method RFind(s: string, c: char) returns (r: Option<nat>)
    ensures r.Some? ==> r.value < |s| && s[r.value] == c && forall k :: r.value < k < |s| ==> s[k] != c
    ensures r.None? ==> c !in s
  {
    var i := |s|;
    while i > 0
      invariant 0 <= i <= |s| && forall k :: i <= k < |s| ==> s[k] != c
    {
      i := i - 1;
      if s[i] == c {
        return Some(i);
      }
    }
    return None;
  }

  /** `str::trim_end_matches` of ASCII white space. */
  method TrimEnd(s: string) returns (len: nat)
    ensures len <= |s| && Spaces(s, len, |s|) && (len > 0 ==> !IsSpace(s[len - 1]))
  {
    len := |s|;
    while len > 0 && IsSpace(s[len - 1])
      invariant len <= |s| && Spaces(s, len, |s|)
    {
      len := len - 1;
    }
  }

  /** `tag` starts with `text` in lower case. */
  predicate Begins(text: string, tag: string) {
    |text| <= |tag| && forall k :: 0 <= k < |text| ==> Lower(text[k]) == tag[k]
  }

  /** The recogniser's two tests of a name cut off after its last non-space, at `len`. */
  lemma NameBegunTests(t: string, n: int, tag: string, len: int)
    requires tag in TAG_NAMES && 0 <= n && 0 < len && n + len <= |t|
    requires !IsSpace(t[n + len - 1]) && Spaces(t, n + len, |t|)
    ensures NameBegunBy(t, n, tag) <==>
      if n + len < |t| then EqIgnoreCase(t[n..n + len], tag) else Begins(t[n..n + len], tag)
  {
    var name := t[n..n + len];
    assert forall k :: 0 <= k < len ==> name[k] == t[n + k];
    if LettersAt(t, n, tag, |t| - n) && n + len < |t| {
      NameLetters(t, n, tag, |t| - n, |t| - 1);
    }
    if LettersAt(t, n, tag, |tag|) {
      NameLetters(t, n, tag, |tag|, n + |tag| - 1);
    }
    assert forall k :: 0 <= k < |tag| ==> Lower(tag[k]) == tag[k];
  }

  /** The last tests of the recogniser: can the text after the spaces and slash become a name? */
  method CanBecomeName(t: string, n: nat) returns (r: bool)
    requires n <= |t| && (n < |t| ==> !IsSpace(t[n]))
    ensures r <==> NameBegun(t, n)
  {
    var name := t[n..];
    assert name != "" ==> name[0] == t[n];
    if name == "" || forall k :: 0 <= k < |name| ==> IsSpace(name[k]) {
      assert NameBegunBy(t, n, TAG_NAMES[0]);
      return true;
    }
    var len := TrimEnd(name);
    var trimmed := name[..len];
    assert trimmed == t[n..n + len];
    assert len > 0 && name[len - 1] == t[n + len - 1];
    forall k | n + len <= k < |t| ensures IsSpace(t[k]) {
      assert name[k - n] == t[k];
    }
    forall tag | tag in TAG_NAMES ensures NameBegunBy(t, n, tag) <==>
      if n + len < |t| then EqIgnoreCase(trimmed, tag) else Begins(trimmed, tag)
    {
      NameBegunTests(t, n, tag, len);
    }
    if |name| != |trimmed| {
      r := exists tag :: tag in TAG_NAMES && EqIgnoreCase(trimmed, tag);
    } else {
      r := exists tag :: tag in TAG_NAMES && Begins(trimmed, tag);
    }
  }

  /** Finds the unfinished tag that `s` ends with, if any. The source tests once more for a
  space after skipping spaces; that arm cannot be reached and has no counterpart here. */
  method PartialThinkTagStart(s: string, closing: bool) returns (r: Option<nat>)
    ensures r.Some? ==> UnfinishedTag(s, r.value, closing)
    ensures r.None? ==> forall pos :: !UnfinishedTag(s, pos, closing)
  {
    var at := RFind(s, '<');
    forall q | UnfinishedTag(s, q, closing) ensures at == Some(q) {
      UnfinishedIsLast(s, q, closing, q);
      if at.Some? { UnfinishedIsLast(s, q, closing, if q <= at.value then at.value else q); }
    }
    if at.None? {
      return None;
    }
    var pos := at.value;
    var tail := s[pos..];
    UnfinishedMoves(s, pos, closing);
    UnfinishedIffShape(tail, closing);
    if '>' in tail {
      if UnfinishedTag(s, pos, closing) {
        var k :| 0 <= k < |tail| && tail[k] == '>';
        UnfinishedIsLast(s, pos, closing, pos + k);
      }
      return None;
    }
    var m := SkipAsciiWhitespace(tail, 1);
    if |tail| <= m {
      return Some(pos);
    }
    var n := m;
    if closing {
      if tail[m] != '/' {
        ShapeAfter(tail, m, n, closing);
        return None;
      }
      n := SkipAsciiWhitespace(tail, m + 1);
    } else if tail[m] == '/' {
      ShapeAfter(tail, m, n, closing);
      return None;
    }
    ShapeAfter(tail, m, n, closing);
    var begun := CanBecomeName(tail, n);
    r := if begun then Some(pos) else None;
  }
}
