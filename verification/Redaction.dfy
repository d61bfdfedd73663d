/** `redact`: the substitution of `(token|secret|password|key)=\S+`, ignoring case, by the
    keyword, an equals sign and a marker. */
module Redaction {
  import opened IdOrder

  const MARK: string := "[REDACTED]"

  /** What `\s` matches in a Python string. */
  predicate IsSpace(c: char) {
    var n := c as int;
    || 9 <= n <= 13 || 28 <= n <= 32 || n == 0x85 || n == 0xA0 || n == 0x1680
    || 0x2000 <= n <= 0x200A || n == 0x2028 || n == 0x2029 || n == 0x202F || n == 0x205F || n == 0x3000
  }

  /** c matches the lower-case letter l when case is ignored. Besides the capital this lets
      in the long s and the Kelvin sign. */
  predicate FoldsTo(c: char, l: char) {
    || c == l
    || c as int == l as int - 32
    || (l == 's' && c == '\U{017F}')
    || (l == 'k' && c == '\U{212A}')
  }

  predicate StartsWithWord(s: string, word: string) {
    |word| <= |s| && forall k :: 0 <= k < |word| ==> FoldsTo(s[k], word[k])
  }

  /** s starts with the word, an equals sign and at least one character that is no space. */
  predicate Hit(s: string, word: string) {
    |word| + 1 < |s| && StartsWithWord(s, word) && s[|word|] == '=' && !IsSpace(s[|word| + 1])
  }

  const WORDS: seq<string> := ["token", "secret", "password", "key"]

  /** The alternation: length of the first listed word that hits, 0 if none does. */
  function FirstHit(s: string, words: seq<string>): (n: nat)
    ensures n > 0 ==> n + 1 < |s|
  {
    if words == [] then 0 else if Hit(s, words[0]) then |words[0]| else FirstHit(s, words[1..])
  }

  /** Length of the keyword matched at the start of s, 0 if the pattern does not match there. */
  function KeywordLength(s: string): (n: nat)
    ensures n > 0 ==> n + 1 < |s|
  {
    FirstHit(s, WORDS)
  }

  /** Characters before the first space. */
  function ChunkLength(s: string): (n: nat)
    ensures n <= |s|
  {
    if s == [] || IsSpace(s[0]) then 0 else 1 + ChunkLength(s[1..])
  }

  /** The text after the run of non-spaces at the start. */
  function AfterChunk(s: string): (r: string) {
    s[ChunkLength(s)..]
  }

  /** `_REDACT_PATTERN.sub`: leftmost matches, each swallowing its value greedily. */
  function Redact(s: string): (r: string)
    decreases |s|
  {
    if s == [] then []
    else if KeywordLength(s) == 0 then [s[0]] + Redact(s[1..])
    else s[..KeywordLength(s)] + (['='] + (MARK + Redact(AfterChunk(s[KeywordLength(s) + 1..]))))
  }

  lemma RedactMiss(s: string)
    requires s != [] && KeywordLength(s) == 0
    ensures Redact(s) == [s[0]] + Redact(s[1..])
  {
  }

  lemma RedactHit(s: string, n: nat)
    requires n > 0 && KeywordLength(s) == n
    ensures Redact(s) == s[..n] + (['='] + (MARK + Redact(AfterChunk(s[n + 1..]))))
  {
    assert s != [] && KeywordLength(s) != 0;
  }

  // ---------------------------------------------------------------- what a hit looks like

  /** Every keyword letter is a letter. */
  predicate Lettered(word: string) {
    word != [] && forall k :: 0 <= k < |word| ==> 'a' <= word[k] <= 'z'
  }

  ghost predicate AllLettered(words: seq<string>) {
    forall i :: 0 <= i < |words| ==> Lettered(words[i])
  }

  lemma WordsAreLettered()
    ensures AllLettered(WORDS)
  {
    assert Lettered("token") && Lettered("secret") && Lettered("password") && Lettered("key");
  }

  predicate Plain(c: char) {
    c != '=' && c != '[' && c != ']' && !IsSpace(c)
  }

  lemma LettersArePlain(c: char, l: char)
    requires FoldsTo(c, l) && 'a' <= l <= 'z'
    ensures Plain(c)
  {
  }

  lemma HitMeans(s: string, word: string)
    requires Hit(s, word) && Lettered(word)
    ensures s[|word|] == '=' && !IsSpace(s[|word| + 1]) && forall k :: 0 <= k < |word| ==> Plain(s[k])
  {
    forall k | 0 <= k < |word|
      ensures Plain(s[k])
    {
      LettersArePlain(s[k], word[k]);
    }
  }

  lemma {:induction false} FirstHitMeans(s: string, words: seq<string>)
    requires AllLettered(words) && FirstHit(s, words) > 0
    ensures var n := FirstHit(s, words);
      s[n] == '=' && !IsSpace(s[n + 1]) && forall k :: 0 <= k < n ==> Plain(s[k])
  {
    if Hit(s, words[0]) {
      HitMeans(s, words[0]);
    } else {
      FirstHitMeans(s, words[1..]);
    }
  }

  lemma MatchMeans(s: string)
    requires KeywordLength(s) > 0
    ensures var n := KeywordLength(s);
      s[n] == '=' && !IsSpace(s[n + 1]) && forall k :: 0 <= k < n ==> Plain(s[k])
  {
    WordsAreLettered();
    FirstHitMeans(s, WORDS);
  }

  // ---------------------------------------------------------------- chunks

  /** The text ends here, or a space follows. */
  predicate Boundary(t: string) {
    t == [] || IsSpace(t[0])
  }

  lemma HitIsLocal(a: string, t: string, word: string)
    requires Boundary(t) && Lettered(word)
    ensures Hit(a + t, word) <==> Hit(a, word)
  {
    var s := a + t;
    assert forall k :: 0 <= k < |a| ==> s[k] == a[k];
    if Hit(s, word) {
      HitMeans(s, word);
      assert |a| < |s| ==> IsSpace(s[|a|]);
    }
  }

  lemma {:induction false} FirstHitIsLocal(a: string, t: string, words: seq<string>)
    requires Boundary(t) && AllLettered(words)
    ensures FirstHit(a + t, words) == FirstHit(a, words)
  {
    if words != [] {
      HitIsLocal(a, t, words[0]);
      FirstHitIsLocal(a, t, words[1..]);
    }
  }

  lemma KeywordIsLocal(a: string, t: string)
    requires Boundary(t)
    ensures KeywordLength(a + t) == KeywordLength(a)
  {
    WordsAreLettered();
    FirstHitIsLocal(a, t, WORDS);
  }

  lemma {:induction false} ChunkIsLocal(a: string, t: string)
    requires Boundary(t)
    ensures ChunkLength(a + t) == ChunkLength(a)
  {
    if a == [] {
      assert a + t == t;
    } else if !IsSpace(a[0]) {
      assert (a + t)[1..] == a[1..] + t;
      ChunkIsLocal(a[1..], t);
    }
  }

  lemma AfterChunkIsLocal(a: string, t: string)
    requires Boundary(t)
    ensures AfterChunk(a + t) == AfterChunk(a) + t
  {
    ChunkIsLocal(a, t);
  }

  lemma {:induction false} AfterChunkIsBoundary(s: string)
    ensures Boundary(AfterChunk(s))
  {
    if s != [] && !IsSpace(s[0]) {
      AfterChunkIsBoundary(s[1..]);
      assert AfterChunk(s) == AfterChunk(s[1..]);
    }
  }

  lemma ConcatParts(a: string, t: string, n: nat)
    requires n < |a|
    ensures (a + t)[..n] == a[..n] && (a + t)[n + 1..] == a[n + 1..] + t
  {
  }

  /** Splitting what follows a common front splits the whole. */
  lemma Glue(front: string, ra: string, rt: string, whole: string, left: string)
    requires left == front + ra && whole == front + (ra + rt)
    ensures whole == left + rt
  {
  }

  lemma GlueHit(front: string, r: string, rt: string, whole: string, left: string)
    requires left == front + (['='] + (MARK + r)) && whole == front + (['='] + (MARK + (r + rt)))
    ensures whole == left + rt
  {
    Assoc(MARK, r, rt);
    Assoc(['='], MARK + r, rt);
    Assoc(front, ['='] + (MARK + r), rt);
  }

  /** Redaction works chunk by chunk: text before a space never affects text after it. */
  lemma {:induction false} RedactSplitsAtSpaces(a: string, t: string)
    requires Boundary(t)
    ensures Redact(a + t) == Redact(a) + Redact(t)
    decreases |a|, 1
  {
    KeywordIsLocal(a, t);
    if a == [] {
      assert a + t == t;
    } else if KeywordLength(a) == 0 {
      SplitAtMiss(a, t);
    } else {
      SplitAtHit(a, t, KeywordLength(a));
    }
  }

  lemma {:induction false} SplitAtMiss(a: string, t: string)
    requires Boundary(t) && a != [] && KeywordLength(a) == 0 && KeywordLength(a + t) == 0
    ensures Redact(a + t) == Redact(a) + Redact(t)
    decreases |a|, 0
  {
    RedactMiss(a);
    RedactMiss(a + t);
    ConcatTail(a, t);
    RedactSplitsAtSpaces(a[1..], t);
    Glue([a[0]], Redact(a[1..]), Redact(t), Redact(a + t), Redact(a));
  }

  lemma {:induction false} SplitAtHit(a: string, t: string, n: nat)
    requires Boundary(t) && n > 0 && KeywordLength(a) == n && KeywordLength(a + t) == n
    ensures Redact(a + t) == Redact(a) + Redact(t)
    decreases |a|, 0
  {
    RedactHit(a, n);
    RedactHit(a + t, n);
    ConcatParts(a, t, n);
    AfterChunkIsLocal(a[n + 1..], t);
    var rest := AfterChunk(a[n + 1..]);
    RedactSplitsAtSpaces(rest, t);
    GlueHit(a[..n], Redact(rest), Redact(t), Redact(a + t), Redact(a));
  }

  predicate Chunk(s: string) {
    forall i :: 0 <= i < |s| ==> !IsSpace(s[i])
  }

  lemma {:induction false} WholeChunk(s: string)
    requires Chunk(s)
    ensures ChunkLength(s) == |s| && AfterChunk(s) == []
  {
    if s != [] {
      WholeChunk(s[1..]);
    }
  }

  ghost predicate NoMatchBefore(s: string, i: nat)
    requires i <= |s|
  {
    forall k :: 0 <= k < i ==> KeywordLength(s[k..]) == 0
  }

  lemma NoMatchTail(s: string, i: nat)
    requires 0 < i <= |s| && NoMatchBefore(s, i)
    ensures KeywordLength(s) == 0 && NoMatchBefore(s[1..], i - 1)
  {
    assert s[0..] == s;
    forall k | 0 <= k < i - 1
      ensures KeywordLength(s[1..][k..]) == 0
    {
      assert s[1..][k..] == s[k + 1..];
    }
  }

  lemma ChunkCutHere(s: string, n: nat)
    requires Chunk(s) && n > 0 && KeywordLength(s) == n
    ensures Redact(s) == s[..n] + (['='] + MARK)
  {
    RedactHit(s, n);
    WholeChunk(s[n + 1..]);
    assert Redact([]) == [];
    assert MARK + [] == MARK;
  }

  lemma TakeFromTail(s: string, m: nat, rest: string)
    requires 0 < m <= |s|
    ensures [s[0]] + (s[1..][..m - 1] + rest) == s[..m] + rest
  {
  }

  lemma DropFromTail(s: string, i: nat)
    requires 0 < i <= |s|
    ensures s[1..][i - 1..] == s[i..]
  {
  }

  /** A chunk is cut at its first keyword-equals-value and ends in the marker. */
  lemma {:induction false} ChunkIsCutAtFirstMatch(s: string, i: nat, n: nat)
    requires Chunk(s) && i < |s| && NoMatchBefore(s, i)
    requires n > 0 && KeywordLength(s[i..]) == n
    ensures i + n <= |s| && Redact(s) == s[..i + n] + (['='] + MARK)
    decreases i
  {
    if i == 0 {
      assert s[0..] == s;
      ChunkCutHere(s, n);
    } else {
      NoMatchTail(s, i);
      DropFromTail(s, i);
      ChunkIsCutAtFirstMatch(s[1..], i - 1, n);
      RedactMiss(s);
      TakeFromTail(s, i + n, ['='] + MARK);
    }
  }

  /** A text without a match is left as it is. */
  lemma {:induction false} NoMatchNoChange(s: string)
    requires NoMatchBefore(s, |s|)
    ensures Redact(s) == s
  {
    if s != [] {
      NoMatchTail(s, |s|);
      RedactMiss(s);
      NoMatchNoChange(s[1..]);
    }
  }

  // ---------------------------------------------------------------- idempotence

  /** s and t agree up to and including an equals sign, and both go on with a non-space. */
  ghost predicate Alike(s: string, t: string, n: nat) {
    && n + 1 < |s| && n + 1 < |t| && s[..n + 1] == t[..n + 1]
    && s[n] == '=' && !IsSpace(s[n + 1]) && !IsSpace(t[n + 1])
  }

  lemma AlikeHits(s: string, t: string, n: nat, word: string)
    requires Alike(s, t, n) && Lettered(word) && Hit(s, word)
    ensures Hit(t, word)
  {
    HitMeans(s, word);
    assert forall k :: 0 <= k <= n ==> s[k] == s[..n + 1][k] == t[..n + 1][k] == t[k];
  }

  lemma AlikeSymmetric(s: string, t: string, n: nat)
    requires Alike(s, t, n)
    ensures Alike(t, s, n)
  {
    assert t[n] == t[..n + 1][n] == s[..n + 1][n];
  }

  lemma {:induction false} AlikeFirstHit(s: string, t: string, n: nat, words: seq<string>)
    requires Alike(s, t, n) && AllLettered(words)
    ensures FirstHit(s, words) == FirstHit(t, words)
  {
    if words != [] {
      AlikeSymmetric(s, t, n);
      if Hit(s, words[0]) {
        AlikeHits(s, t, n, words[0]);
      } else if Hit(t, words[0]) {
        AlikeHits(t, s, n, words[0]);
      } else {
        AlikeFirstHit(s, t, n, words[1..]);
      }
    }
  }

  lemma AlikeKeyword(s: string, t: string, n: nat)
    requires Alike(s, t, n)
    ensures KeywordLength(s) == KeywordLength(t)
  {
    WordsAreLettered();
    AlikeFirstHit(s, t, n, WORDS);
  }

  lemma AlikePrepend(c: char, s: string, t: string, n: nat)
    requires Alike(s, t, n)
    ensures Alike([c] + s, [c] + t, n + 1)
  {
    assert ([c] + s)[..n + 2] == [c] + s[..n + 1];
    assert ([c] + t)[..n + 2] == [c] + t[..n + 1];
  }

  lemma HitIsAlike(s: string, n: nat, rest: string)
    requires n > 0 && KeywordLength(s) == n
    ensures Alike(s, s[..n] + (['='] + (MARK + rest)), n)
  {
    MatchMeans(s);
    var t := s[..n] + (['='] + (MARK + rest));
    assert t[..n + 1] == s[..n] + ['='] == s[..n + 1];
    assert t[n + 1] == MARK[0];
  }

  /** Redaction changes nothing before the first value it replaces. */
  lemma {:induction false} RedactIsAlike(s: string) returns (n: nat)
    ensures Redact(s) == s || Alike(s, Redact(s), n)
  {
    n := KeywordLength(s);
    if s != [] {
      if n > 0 {
        RedactHit(s, n);
        HitIsAlike(s, n, Redact(AfterChunk(s[n + 1..])));
      } else {
        RedactMiss(s);
        var k := RedactIsAlike(s[1..]);
        assert s == [s[0]] + s[1..];
        if Redact(s[1..]) != s[1..] {
          AlikePrepend(s[0], s[1..], Redact(s[1..]), k);
          n := k + 1;
        }
      }
    }
  }

  /** What a miss leaves in front of redacted text is still no match. */
  lemma MissStaysMiss(c: char, rest: string)
    ensures KeywordLength([c] + Redact(rest)) == KeywordLength([c] + rest)
  {
    var n := RedactIsAlike(rest);
    if Redact(rest) != rest {
      AlikePrepend(c, rest, Redact(rest), n);
      AlikeKeyword([c] + rest, [c] + Redact(rest), n + 1);
    }
  }

  lemma SpaceIsNoMatch(t: string)
    requires t != [] && IsSpace(t[0])
    ensures KeywordLength(t) == 0
  {
    if KeywordLength(t) > 0 {
      MatchMeans(t);
    }
  }

  lemma RedactKeepsBoundary(t: string)
    requires Boundary(t)
    ensures Boundary(Redact(t))
  {
    if t != [] {
      SpaceIsNoMatch(t);
      RedactMiss(t);
    }
  }

  lemma MarkIsChunk()
    ensures Chunk(MARK)
  {
  }

  lemma RedactedValue(rest: string)
    requires Boundary(rest)
    ensures AfterChunk(MARK + rest) == rest
  {
    MarkIsChunk();
    WholeChunk(MARK);
    AfterChunkIsLocal(MARK, rest);
    assert [] + rest == rest;
  }

  /** Redacting twice is redacting once. */
  lemma {:induction false} RedactIdempotent(s: string)
    ensures Redact(Redact(s)) == Redact(s)
    decreases |s|
  {
    if s != [] {
      var n := KeywordLength(s);
      if n == 0 {
        RedactMiss(s);
        assert s == [s[0]] + s[1..];
        MissStaysMiss(s[0], s[1..]);
        var t := [s[0]] + Redact(s[1..]);
        RedactMiss(t);
        assert t[1..] == Redact(s[1..]);
        RedactIdempotent(s[1..]);
      } else {
        var rest := AfterChunk(s[n + 1..]);
        RedactIdempotent(rest);
        RedactHit(s, n);
        HitTwice(s, n, rest);
      }
    }
  }

  lemma HitTwice(s: string, n: nat, rest: string)
    requires n > 0 && KeywordLength(s) == n && rest == AfterChunk(s[n + 1..])
    requires Redact(Redact(rest)) == Redact(rest)
    ensures Redact(s[..n] + (['='] + (MARK + Redact(rest)))) == s[..n] + (['='] + (MARK + Redact(rest)))
  {
    var t := s[..n] + (['='] + (MARK + Redact(rest)));
    HitIsAlike(s, n, Redact(rest));
    AlikeKeyword(s, t, n);
    RedactHit(t, n);
    assert t[..n] == s[..n] && t[n + 1..] == MARK + Redact(rest);
    AfterChunkIsBoundary(s[n + 1..]);
    RedactKeepsBoundary(rest);
    RedactedValue(Redact(rest));
  }

  // ---------------------------------------------------------------- nothing is left unmarked

  /** The keyword at position i is followed by an equals sign and exactly the marker. */
  ghost predicate MarkedAt(out: string, i: nat)
    requires i <= |out|
  {
    var n := KeywordLength(out[i..]);
    n > 0 ==> MARK <= out[i + n + 1..] && Boundary(out[i + n + 1 + |MARK|..])
  }

  /** Every keyword-equals followed by a non-space is followed by exactly the marker. */
  ghost predicate Safe(out: string) {
    forall i :: 0 <= i <= |out| ==> MarkedAt(out, i)
  }

  lemma DropPrefix(pre: string, out: string, k: nat)
    requires k <= |out|
    ensures (pre + out)[|pre| + k..] == out[k..]
  {
  }

  lemma MarkedShift(pre: string, out: string, i: nat)
    requires i <= |out| && MarkedAt(out, i)
    ensures MarkedAt(pre + out, |pre| + i)
  {
    var n := KeywordLength(out[i..]);
    DropPrefix(pre, out, i);
    if n > 0 {
      DropPrefix(pre, out, i + n + 1);
      DropPrefix(pre, out, i + n + 1 + |MARK|);
    }
  }

  lemma PlainBeforeEquals(pre: string, tail: string, m: nat)
    requires forall k :: 0 <= k < |pre| ==> Plain(pre[k])
    requires KeywordLength(pre + (['='] + tail)) == m > 0
    ensures m == |pre|
  {
    MatchMeans(pre + (['='] + tail));
    NoEqualsBefore(pre, ['='] + tail);
    assert (pre + (['='] + tail))[|pre|] == '=';
  }

  lemma NoEqualsBefore(pre: string, tail: string)
    requires forall k :: 0 <= k < |pre| ==> Plain(pre[k])
    ensures forall k :: 0 <= k < |pre| ==> (pre + tail)[k] != '='
  {
  }

  lemma MarkedInKeyword(pre: string, rest: string, i: nat)
    requires i <= |pre| && Boundary(rest)
    requires forall k :: 0 <= k < |pre| ==> Plain(pre[k])
    ensures MarkedAt(pre + (['='] + (MARK + rest)), i)
  {
    var tail := MARK + rest;
    var out := pre + (['='] + tail);
    assert out[i..] == pre[i..] + (['='] + tail);
    var m := KeywordLength(out[i..]);
    if m > 0 {
      PlainBeforeEquals(pre[i..], tail, m);
      assert out == (pre + ['=']) + tail;
      DropPrefix(pre + ['='], tail, 0);
      DropPrefix(pre + ['='], tail, |MARK|);
      DropPrefix(MARK, rest, 0);
    }
  }

  lemma MarkedInMark(rest: string, j: nat)
    requires j <= |MARK| && Boundary(rest)
    ensures MarkedAt(MARK + rest, j)
  {
    assert (MARK + rest)[j..] == MARK[j..] + rest;
    KeywordIsLocal(MARK[j..], rest);
    if KeywordLength(MARK[j..]) > 0 {
      MatchMeans(MARK[j..]);
    }
  }

  lemma MarkedAfterHit(pre: string, rest: string, i: nat)
    requires Boundary(rest) && |pre| < i <= |pre| + 1 + |MARK| + |rest|
    requires i > |pre| + 1 + |MARK| ==> MarkedAt(rest, i - |pre| - 1 - |MARK|)
    ensures MarkedAt(pre + (['='] + (MARK + rest)), i)
  {
    var tail := MARK + rest;
    Assoc(pre, ['='], tail);
    var j := i - |pre| - 1;
    if j <= |MARK| {
      MarkedInMark(rest, j);
    } else {
      MarkedShift(MARK, rest, j - |MARK|);
    }
    MarkedShift(pre + ['='], tail, j);
  }

  lemma MarkedMissHere(s: string)
    requires s != [] && KeywordLength(s) == 0
    ensures MarkedAt([s[0]] + Redact(s[1..]), 0)
  {
    var out := [s[0]] + Redact(s[1..]);
    assert s == [s[0]] + s[1..];
    MissStaysMiss(s[0], s[1..]);
    assert out[0..] == out;
  }

  /** After redaction no keyword-equals is followed by anything but the marker. */
  lemma {:induction false} EveryMatchIsMarked(s: string, i: nat)
    requires i <= |Redact(s)|
    ensures MarkedAt(Redact(s), i)
    decreases |s|, 1
  {
    if s != [] {
      if KeywordLength(s) == 0 {
        RedactMiss(s);
        MarkedMiss(s, i);
      } else {
        MarkedHit(s, i, KeywordLength(s));
      }
    }
  }

  lemma {:induction false} MarkedMiss(s: string, i: nat)
    requires s != [] && KeywordLength(s) == 0 && i <= 1 + |Redact(s[1..])|
    ensures MarkedAt([s[0]] + Redact(s[1..]), i)
    decreases |s|, 0
  {
    if i == 0 {
      MarkedMissHere(s);
    } else {
      EveryMatchIsMarked(s[1..], i - 1);
      MarkedShift([s[0]], Redact(s[1..]), i - 1);
    }
  }

  lemma {:induction false} MarkedHit(s: string, i: nat, n: nat)
    requires i <= |Redact(s)| && n > 0 && KeywordLength(s) == n
    ensures MarkedAt(Redact(s), i)
    decreases |s|, 0
  {
    var rest := AfterChunk(s[n + 1..]);
    RedactHit(s, n);
    MatchMeans(s);
    AfterChunkIsBoundary(s[n + 1..]);
    RedactKeepsBoundary(rest);
    if i <= n {
      MarkedInKeyword(s[..n], Redact(rest), i);
    } else {
      if i > n + 1 + |MARK| {
        EveryMatchIsMarked(rest, i - n - 1 - |MARK|);
      }
      MarkedAfterHit(s[..n], Redact(rest), i);
    }
  }

  lemma RedactedIsSafe(s: string)
    ensures Safe(Redact(s))
  {
    forall i | 0 <= i <= |Redact(s)|
      ensures MarkedAt(Redact(s), i)
    {
      EveryMatchIsMarked(s, i);
    }
  }

  // ---------------------------------------------------------------- whole preference pairs

  datatype RemediationAction = RemediationAction(
    actionType: string, command: string, outcome: string, durationSeconds: real)

  /** Probe states are arbitrary JSON values. */
  datatype Json =
    | JNull
    | JBool(b: bool)
    | JNumber(n: real)
    | JText(text: string)
    | JList(items: seq<Json>)
    | JObject(fields: seq<(string, Json)>)

  datatype DpoPairContext = DpoPairContext(
    events: seq<string>, logs: seq<string>, probeState: Json, ns: string, kind: string)

  datatype DpoPairMeta = DpoPairMeta(
    sandboxVerified: bool, prodApplied: bool, timeToFixSeconds: real, sessionId: string, remediatorVersion: string)

  datatype DpoPair = DpoPair(
    prompt: string, chosen: RemediationAction, rejected: seq<RemediationAction>,
    context: DpoPairContext, verification: string, meta: DpoPairMeta)

  function RedactAction(a: RemediationAction): RemediationAction {
    a.(command := Redact(a.command))
  }

  function RedactLines(lines: seq<string>): (r: seq<string>)
    ensures |r| == |lines| && forall i :: 0 <= i < |r| ==> r[i] == Redact(lines[i])
  {
    seq(|lines|, i requires 0 <= i < |lines| => Redact(lines[i]))
  }

  function RedactActions(actions: seq<RemediationAction>): (r: seq<RemediationAction>)
    ensures |r| == |actions| && forall i :: 0 <= i < |r| ==> r[i] == RedactAction(actions[i])
  {
    seq(|actions|, i requires 0 <= i < |actions| => RedactAction(actions[i]))
  }

  /** `redact_pair`. */
  function RedactPair(p: DpoPair): DpoPair {
    p.(chosen := RedactAction(p.chosen),
       rejected := RedactActions(p.rejected),
       context := p.context.(events := RedactLines(p.context.events), logs := RedactLines(p.context.logs)),
       verification := Redact(p.verification))
  }

  ghost predicate SafeLines(lines: seq<string>) {
    forall i :: 0 <= i < |lines| ==> Safe(lines[i])
  }

  function HexDigit(n: nat): (c: char)
    requires n < 16
  {
    "0123456789abcdef"[n]
  }

  function UnicodeEscape(n: nat): (r: string)
    requires n < 0x10000
  {
    ['\\', 'u', HexDigit(n / 4096), HexDigit(n / 256 % 16), HexDigit(n / 16 % 16), HexDigit(n % 16)]
  }

  /** How `json.dumps` writes a character inside a text: ASCII only. */
  function EscapeChar(c: char): (r: string) {
    var n := c as int;
    if c == '"' || c == '\\' then ['\\', c]
    else if c == '\n' then ['\\', 'n']
    else if c == '\r' then ['\\', 'r']
    else if c == '\t' then ['\\', 't']
    else if n == 8 then ['\\', 'b']
    else if n == 12 then ['\\', 'f']
    else if 32 <= n <= 126 then [c]
    else if n < 0x10000 then UnicodeEscape(n)
    else UnicodeEscape(0xD800 + (n - 0x10000) / 0x400) + UnicodeEscape(0xDC00 + (n - 0x10000) % 0x400)
  }

  function Escape(s: string): (r: string) {
    if s == [] then [] else EscapeChar(s[0]) + Escape(s[1..])
  }

  /** The text as `json.dumps` writes it, between the quotes, is safe. A space that is escaped
      no longer ends a value. */
  ghost predicate SafeText(s: string) {
    Safe(Escape(s))
  }

  /** No key and no text inside the value shows an unmarked keyword-equals-value. */
  ghost predicate SafeJson(j: Json) {
    match j
    case JText(text) => SafeText(text)
    case JList(items) => forall i :: 0 <= i < |items| ==> SafeJson(items[i])
    case JObject(fields) => forall i :: 0 <= i < |fields| ==> SafeText(fields[i].0) && SafeJson(fields[i].1)
    case _ => true
  }

  ghost predicate SafeAction(a: RemediationAction) {
    Safe(a.actionType) && Safe(a.command) && Safe(a.outcome)
  }

  /** Nothing that the issue body quotes shows an unmarked keyword-equals-value: prompt,
      actions, namespace, kind, events, logs and verification as they are, probe state and
      meta as JSON. */
  ghost predicate SafePair(p: DpoPair) {
    && Safe(p.prompt) && Safe(p.verification)
    && SafeAction(p.chosen)
    && (forall i :: 0 <= i < |p.rejected| ==> SafeAction(p.rejected[i]))
    && SafeLines(p.context.events) && SafeLines(p.context.logs)
    && SafeJson(p.context.probeState) && Safe(p.context.ns) && Safe(p.context.kind)
    && SafeText(p.meta.sessionId) && SafeText(p.meta.remediatorVersion)
  }

  /** The fields of an action that are copied as they are. */
  ghost predicate CopiedActionSafe(a: RemediationAction) {
    Safe(a.actionType) && Safe(a.outcome)
  }

  /** The fields that `redact_pair` copies as they are. */
  ghost predicate CopiedFieldsSafe(p: DpoPair) {
    && Safe(p.prompt)
    && CopiedActionSafe(p.chosen)
    && (forall i :: 0 <= i < |p.rejected| ==> CopiedActionSafe(p.rejected[i]))
    && SafeJson(p.context.probeState) && Safe(p.context.ns) && Safe(p.context.kind)
    && SafeText(p.meta.sessionId) && SafeText(p.meta.remediatorVersion)
  }

  lemma LinesBecomeSafe(lines: seq<string>)
    ensures SafeLines(RedactLines(lines))
  {
    forall i | 0 <= i < |lines|
      ensures Safe(RedactLines(lines)[i])
    {
      RedactedIsSafe(lines[i]);
    }
  }

  lemma ActionSafeExactly(a: RemediationAction)
    ensures SafeAction(RedactAction(a)) <==> CopiedActionSafe(a)
  {
    RedactedIsSafe(a.command);
  }

  /** Whatever the redacted fields held, the redacted pair is safe exactly if every copied
      field was safe already. */
  lemma PairSafeExactly(p: DpoPair)
    ensures SafePair(RedactPair(p)) <==> CopiedFieldsSafe(p)
  {
    RedactedIsSafe(p.verification);
    ActionSafeExactly(p.chosen);
    LinesBecomeSafe(p.context.events);
    LinesBecomeSafe(p.context.logs);
    var r := RedactPair(p);
    forall i | 0 <= i < |p.rejected|
      ensures SafeAction(r.rejected[i]) <==> CopiedActionSafe(p.rejected[i])
    {
      ActionSafeExactly(p.rejected[i]);
    }
  }

  lemma LinesIdempotent(lines: seq<string>)
    ensures RedactLines(RedactLines(lines)) == RedactLines(lines)
  {
    forall i | 0 <= i < |lines|
      ensures RedactLines(RedactLines(lines))[i] == RedactLines(lines)[i]
    {
      RedactIdempotent(lines[i]);
    }
  }

  lemma ActionsIdempotent(actions: seq<RemediationAction>)
    ensures RedactActions(RedactActions(actions)) == RedactActions(actions)
  {
    forall i | 0 <= i < |actions|
      ensures RedactActions(RedactActions(actions))[i] == RedactActions(actions)[i]
    {
      RedactIdempotent(actions[i].command);
    }
  }

  lemma RedactPairIdempotent(p: DpoPair)
    ensures RedactPair(RedactPair(p)) == RedactPair(p)
  {
    RedactIdempotent(p.verification);
    RedactIdempotent(p.chosen.command);
    ActionsIdempotent(p.rejected);
    LinesIdempotent(p.context.events);
    LinesIdempotent(p.context.logs);
  }

  /** A keyword, an equals sign and a value are not safe. */
  lemma SecretIsNotSafe(value: string)
    requires value != [] && !IsSpace(value[0]) && value[0] != '['
    ensures !Safe("key=" + value)
  {
    var s := "key=" + value;
    assert s[4] == value[0] && s[0..] == s;
    KeyHits(s);
    assert s[0 + 3 + 1..][0] == value[0];
    assert !MarkedAt(s, 0);
  }

  /** A prompt with a secret in it reaches the issue body unchanged. */
  lemma PromptIsNotRedacted(p: DpoPair)
    requires p.prompt == "key=" + "x"
    ensures RedactPair(p).prompt == p.prompt && !SafePair(RedactPair(p))
  {
    SecretIsNotSafe("x");
  }

  lemma EscapeConcat(c: char, s: string)
    ensures Escape([c] + s) == EscapeChar(c) + Escape(s)
  {
    assert ([c] + s)[1..] == s;
  }

  predicate Printable(c: char) {
    32 <= c as int <= 126 && c != '"' && c != '\\'
  }

  lemma PrependTail(s: string, rest: string)
    requires s != []
    ensures [s[0]] + (s[1..] + rest) == s + rest
  {
  }

  /** Printable ASCII without quotes and backslashes is written as it is. */
  lemma {:induction false} EscapePrintable(s: string, t: string)
    requires forall i :: 0 <= i < |s| ==> Printable(s[i])
    ensures Escape(s + t) == s + Escape(t)
  {
    if s == [] {
      assert [] + t == t && [] + Escape(t) == Escape(t);
    } else {
      EscapePrintable(s[1..], t);
      PrependTail(s, t);
      EscapeConcat(s[0], s[1..] + t);
      PrependTail(s, Escape(t));
    }
  }

  lemma KeyIsWrittenAsIs(value: string)
    ensures Escape("key=" + value) == "key=" + Escape(value)
  {
    var k := "key=";
    assert k[0] == 'k' && k[1] == 'e' && k[2] == 'y' && k[3] == '=';
    EscapePrintable(k, value);
  }

  lemma ShownSecretIsNotSafe(value: string)
    requires value == "x" || value == "\nx"
    ensures !SafeText("key=" + value)
  {
    KeyIsWrittenAsIs(value);
    EscapeValues();
    SecretIsNotSafe(Escape(value));
  }

  /** A secret among the values of the probe state reaches it as well, and so does one that
      only the escaped line break makes a value: as a text it is safe, as JSON it is not. */
  lemma ProbeStateIsNotRedacted(p: DpoPair, name: string, value: string)
    requires value == "x" || value == "\nx"
    requires p.context.probeState == JObject([(name, JText("key=" + value))])
    ensures RedactPair(p).context.probeState == p.context.probeState && !SafePair(RedactPair(p))
    ensures value == "\nx" ==> Safe("key=" + value)
  {
    ShownSecretIsNotSafe(value);
    FieldNotSafe(name, "key=" + value);
    LineBreakIsSafeAsText("key=" + "\nx");
  }

  lemma FieldNotSafe(name: string, text: string)
    requires !SafeText(text)
    ensures !SafeJson(JObject([(name, JText(text))]))
  {
    var fields := [(name, JText(text))];
    assert !SafeJson(fields[0].1);
  }

  lemma EscapeValues()
    ensures Escape("x") == "x" && Escape("\nx") == "\\nx"
  {
    EscapeConcat('x', []);
    EscapeConcat('\n', "x");
    assert ['x'] + [] == "x" && ['\n'] + "x" == "\nx" && Escape([]) == [];
    assert ['\\', 'n'] + "x" == "\\nx";
  }

  lemma LineBreakIsSafeAsText(s: string)
    requires s == "key=" + "\nx"
    ensures Safe(s)
  {
    forall i | 0 <= i <= |s|
      ensures MarkedAt(s, i)
    {
      var n := KeywordLength(s[i..]);
      if n > 0 {
        MatchMeans(s[i..]);
        EveryEqualsEndsLine(s, i + n);
      }
    }
  }

  lemma EveryEqualsEndsLine(s: string, k: nat)
    requires s == "key=" + "\nx" && k + 1 < |s|
    ensures s[k] == '=' ==> IsSpace(s[k + 1])
  {
    assert s[0] == 'k' && s[1] == 'e' && s[2] == 'y' && s[3] == '=' && s[4] == '\n';
  }

  lemma KeyHits(s: string)
    requires |s| > 4 && s[..4] == "key=" && !IsSpace(s[4])
    ensures KeywordLength(s) == 3
  {
    assert s[0] == s[..4][0] == 'k' && s[1] == s[..4][1] && s[2] == s[..4][2] && s[3] == s[..4][3];
    assert !Hit(s, "token") && !Hit(s, "secret") && !Hit(s, "password");
    assert Hit(s, "key");
    KeywordLengthUnfolds(s);
  }

  lemma SkipWord(s: string, word: string, words: seq<string>)
    requires !Hit(s, word)
    ensures FirstHit(s, [word] + words) == FirstHit(s, words)
  {
    assert ([word] + words)[1..] == words;
  }

  lemma KeywordLengthUnfolds(s: string)
    requires !Hit(s, "token") && !Hit(s, "secret") && !Hit(s, "password") && Hit(s, "key")
    ensures KeywordLength(s) == 3
  {
    var one: seq<string> := ["key"];
    var two: seq<string> := ["password"] + one;
    var three: seq<string> := ["secret"] + two;
    SkipWord(s, "password", one);
    SkipWord(s, "secret", two);
    SkipWord(s, "token", three);
    assert WORDS == ["token"] + three;
  }
}
