/** Redaction told on the text: the four words, an equals sign and a value, spelled out. */
module RedactionWords {
  import opened IdOrder
  import opened Redaction

  /** w is the word, each letter in either case. The long s and the Kelvin sign, whose other
      cases are ASCII, pass for s and k. */
  ghost predicate Spells(w: string, low: string, up: string)
    requires |low| == |up|
  {
    && |w| == |low|
    && forall k :: 0 <= k < |w| ==>
         || w[k] == low[k] || w[k] == up[k]
         || (low[k] == 's' && w[k] == '\U{017F}') || (low[k] == 'k' && w[k] == '\U{212A}')
  }

  ghost predicate Keyword(w: string) {
    || Spells(w, "token", "TOKEN")
    || Spells(w, "secret", "SECRET")
    || Spells(w, "password", "PASSWORD")
    || Spells(w, "key", "KEY")
  }

  /** A keyword of length n stands at i, directly before an equals sign and a value. */
  ghost predicate SecretAt(s: string, i: nat, n: nat) {
    i + n + 1 < |s| && Keyword(s[i..i + n]) && s[i + n] == '=' && !IsSpace(s[i + n + 1])
  }

  // ---------------------------------------------------------------- what the pattern matches

  lemma CapitalIs32Below(low: string, up: string)
    requires (low, up) in [("token", "TOKEN"), ("secret", "SECRET"), ("password", "PASSWORD"), ("key", "KEY")]
    ensures |low| == |up| && forall k :: 0 <= k < |low| ==> up[k] as int == low[k] as int - 32
  {
  }

  lemma SpellsExactly(s: string, low: string, up: string)
    requires |low| == |up| <= |s| && forall k :: 0 <= k < |low| ==> up[k] as int == low[k] as int - 32
    ensures Spells(s[..|low|], low, up) <==> StartsWithWord(s, low)
  {
    var w := s[..|low|];
    forall k | 0 <= k < |low|
      ensures FoldsTo(s[k], low[k]) <==>
        || w[k] == low[k] || w[k] == up[k]
        || (low[k] == 's' && w[k] == '\U{017F}') || (low[k] == 'k' && w[k] == '\U{212A}')
    {
      assert w[k] == s[k];
    }
  }

  /** The word stands at the start of s before an equals sign and a value. */
  ghost predicate WordHere(s: string, low: string, up: string)
    requires |low| == |up|
  {
    |low| + 1 < |s| && Spells(s[..|low|], low, up) && s[|low|] == '=' && !IsSpace(s[|low| + 1])
  }

  lemma HitExactly(s: string, low: string, up: string)
    requires (low, up) in [("token", "TOKEN"), ("secret", "SECRET"), ("password", "PASSWORD"), ("key", "KEY")]
    ensures |low| == |up| && (Hit(s, low) <==> WordHere(s, low, up))
  {
    CapitalIs32Below(low, up);
    if |low| + 1 < |s| {
      SpellsExactly(s, low, up);
    }
  }

  lemma FirstHitCons(s: string, word: string, words: seq<string>)
    ensures FirstHit(s, [word] + words) == if Hit(s, word) then |word| else FirstHit(s, words)
  {
    assert ([word] + words)[1..] == words;
  }

  lemma KeywordCases(s: string)
    ensures KeywordLength(s) ==
      if Hit(s, "token") then 5 else if Hit(s, "secret") then 6 else if Hit(s, "password") then 8
      else if Hit(s, "key") then 3 else 0
  {
    var none: seq<string> := [];
    var one: seq<string> := ["key"] + none;
    var two: seq<string> := ["password"] + one;
    var three: seq<string> := ["secret"] + two;
    FirstHitCons(s, "key", none);
    FirstHitCons(s, "password", one);
    FirstHitCons(s, "secret", two);
    FirstHitCons(s, "token", three);
    assert WORDS == ["token"] + three;
  }

  lemma HitsExactly(s: string)
    ensures Hit(s, "token") <==> WordHere(s, "token", "TOKEN")
    ensures Hit(s, "secret") <==> WordHere(s, "secret", "SECRET")
    ensures Hit(s, "password") <==> WordHere(s, "password", "PASSWORD")
    ensures Hit(s, "key") <==> WordHere(s, "key", "KEY")
  {
    HitExactly(s, "token", "TOKEN");
    HitExactly(s, "secret", "SECRET");
    HitExactly(s, "password", "PASSWORD");
    HitExactly(s, "key", "KEY");
  }

  lemma KeywordSize(w: string)
    ensures Keyword(w) ==> |w| in {3, 5, 6, 8}
    ensures Keyword(w) <==> match |w|
      case 3 => Spells(w, "key", "KEY")
      case 5 => Spells(w, "token", "TOKEN")
      case 6 => Spells(w, "secret", "SECRET")
      case 8 => Spells(w, "password", "PASSWORD")
      case _ => false
  {
  }

  /** Hits of two words end at the same equals sign. */
  lemma OneEquals(s: string, n: nat)
    requires KeywordLength(s) > 0 && n < |s| && s[n] == '=' && forall k :: 0 <= k < n ==> Plain(s[k])
    ensures KeywordLength(s) == n
  {
    MatchMeans(s);
  }

  lemma HitDecides(s: string, word: string)
    requires word in ["token", "secret", "password", "key"] && Hit(s, word)
    ensures KeywordLength(s) == |word|
  {
    KeywordCases(s);
    assert Lettered("token") && Lettered("secret") && Lettered("password") && Lettered("key");
    HitMeans(s, word);
    OneEquals(s, |word|);
  }

  /** The pattern matches n letters at the start exactly if they are a keyword that stands
      before an equals sign and a value. */
  lemma MatchExactly(s: string, n: nat)
    requires n > 0
    ensures KeywordLength(s) == n <==> SecretAt(s, 0, n)
  {
    KeywordCases(s);
    HitsExactly(s);
    if n + 1 < |s| {
      KeywordSize(s[..n]);
      assert s[0..0 + n] == s[..n];
    }
    if SecretAt(s, 0, n) {
      var word := if n == 3 then "key" else if n == 5 then "token" else if n == 6 then "secret" else "password";
      HitDecides(s, word);
    }
  }

  lemma MatchAt(s: string, i: nat, n: nat)
    requires i <= |s| && n > 0
    ensures KeywordLength(s[i..]) == n <==> SecretAt(s, i, n)
  {
    MatchExactly(s[i..], n);
    if i + n + 1 < |s| {
      assert s[i..][0..0 + n] == s[i..i + n];
    }
  }

  lemma NoSecretNoMatch(s: string, i: nat)
    requires i <= |s| && forall n: nat :: !SecretAt(s, i, n)
    ensures KeywordLength(s[i..]) == 0
  {
    var n := KeywordLength(s[i..]);
    if n > 0 {
      MatchAt(s, i, n);
    }
  }

  // ---------------------------------------------------------------- what becomes of a text

  /** A run of non-spaces is cut after its first keyword and equals sign, and the marker put
      in place of the rest. */
  lemma FirstSecretCuts(s: string, i: nat, n: nat)
    requires Chunk(s) && SecretAt(s, i, n)
    requires forall j: nat, m: nat :: j < i ==> !SecretAt(s, j, m)
    ensures Redact(s) == s[..i + n] + "=" + "[REDACTED]"
  {
    KeywordSize(s[i..i + n]);
    MatchAt(s, i, n);
    forall j | 0 <= j < i
      ensures KeywordLength(s[j..]) == 0
    {
      NoSecretNoMatch(s, j);
    }
    ChunkIsCutAtFirstMatch(s, i, n);
    Assoc(s[..i + n], ['='], MARK);
  }

  /** From k on the text reads the marker, and then ends or goes on with a space. */
  ghost predicate MarkerAt(s: string, k: nat) {
    k + 10 <= |s| && s[k..k + 10] == "[REDACTED]" && (k + 10 < |s| ==> IsSpace(s[k + 10]))
  }

  /** Every keyword before an equals sign and a value is followed by the marker for a value. */
  ghost predicate NoSecretShows(s: string) {
    forall i: nat, n: nat :: SecretAt(s, i, n) ==> MarkerAt(s, i + n + 1)
  }

  lemma MarkerExactly(s: string, k: nat)
    requires k <= |s|
    ensures MarkerAt(s, k) <==> MARK <= s[k..] && Boundary(s[k + |MARK|..])
  {
    if k + 10 <= |s| {
      assert s[k..][..10] == s[k..k + 10];
    }
  }

  lemma SecretHere(s: string, i: nat, n: nat)
    requires i <= |s|
    ensures SecretAt(s, i, n) <==> n > 0 && KeywordLength(s[i..]) == n
  {
    if n > 0 {
      MatchAt(s, i, n);
    } else if i + n + 1 < |s| {
      KeywordSize(s[i..i + n]);
    }
  }

  lemma MarkedExactly(s: string, i: nat, n: nat)
    requires i <= |s| && SecretAt(s, i, n)
    ensures MarkedAt(s, i) <==> MarkerAt(s, i + n + 1)
  {
    SecretHere(s, i, n);
    MarkerExactly(s, i + n + 1);
  }

  lemma SafeExactly(s: string)
    ensures Safe(s) <==> NoSecretShows(s)
  {
    forall i: nat, n: nat | SecretAt(s, i, n)
      ensures MarkedAt(s, i) <==> MarkerAt(s, i + n + 1)
    {
      MarkedExactly(s, i, n);
    }
    forall i | 0 <= i <= |s|
      ensures MarkedAt(s, i) || SecretAt(s, i, KeywordLength(s[i..]))
    {
      SecretHere(s, i, KeywordLength(s[i..]));
    }
  }

  /** Afterwards no secret shows, wherever it stood. */
  lemma RedactedShowsNoSecret(s: string)
    ensures NoSecretShows(Redact(s))
  {
    RedactedIsSafe(s);
    SafeExactly(Redact(s));
  }

  lemma SafeTail(s: string, k: nat)
    requires Safe(s) && k <= |s|
    ensures Safe(s[k..])
  {
    var t := s[k..];
    forall i | 0 <= i <= |t|
      ensures MarkedAt(t, i)
    {
      assert t[i..] == s[k + i..];
      assert MarkedAt(s, k + i);
      var n := KeywordLength(t[i..]);
      if n > 0 {
        assert t[i + n + 1..] == s[k + i + n + 1..];
      }
    }
  }

  lemma {:induction false} SafeStays(s: string)
    requires Safe(s)
    ensures Redact(s) == s
    decreases |s|
  {
    if s != [] {
      var n := KeywordLength(s);
      if n == 0 {
        SafeTail(s, 1);
        SafeStays(s[1..]);
        RedactMiss(s);
      } else {
        MarkerStays(s, n);
        var rest := s[n + 1 + |MARK|..];
        SafeTail(s, n + 1 + |MARK|);
        SafeStays(rest);
        RedactHit(s, n);
      }
    }
  }

  lemma MarkerStays(s: string, n: nat)
    requires Safe(s) && n > 0 && KeywordLength(s) == n
    ensures n + 1 + |MARK| <= |s|
    ensures var rest := s[n + 1 + |MARK|..];
      AfterChunk(s[n + 1..]) == rest && s == s[..n] + (['='] + (MARK + rest))
  {
    assert s[0..] == s && MarkedAt(s, 0);
    var rest := s[n + 1 + |MARK|..];
    assert s[n + 1..] == MARK + rest;
    RedactedValue(rest);
    MatchMeans(s);
  }

  /** A text is left as it is exactly if no secret shows in it. */
  lemma UnchangedExactly(s: string)
    ensures Redact(s) == s <==> NoSecretShows(s)
  {
    SafeExactly(s);
    RedactedIsSafe(s);
    if Safe(s) {
      SafeStays(s);
    }
  }

  /** In particular if none of the four words stands before an equals sign and a value. */
  lemma NoSecretNoChange(s: string)
    requires forall i: nat, n: nat :: !SecretAt(s, i, n)
    ensures Redact(s) == s
  {
    UnchangedExactly(s);
  }

  lemma KeywordIsChunk(w: string)
    requires Keyword(w)
    ensures w != [] && forall k :: 0 <= k < |w| ==> !IsSpace(w[k]) && w[k] != '='
  {
    KeywordSize(w);
  }

  lemma SecretAtStart(w: string, v: string)
    requires Keyword(w) && v != [] && !IsSpace(v[0])
    ensures SecretAt(w + "=" + v, 0, |w|)
  {
    var s := w + "=" + v;
    assert s[0..0 + |w|] == w && s[|w|] == '=' && s[|w| + 1] == v[0];
  }

  lemma WordAlone(w: string, v: string)
    requires Keyword(w) && v != [] && (forall k :: 0 <= k < |v| ==> !IsSpace(v[k]))
    ensures Redact(w + "=" + v) == w + "=" + "[REDACTED]"
  {
    var s := w + "=" + v;
    KeywordIsChunk(w);
    JoinedChunk(w, v);
    SecretAtStart(w, v);
    FirstSecretCuts(s, 0, |w|);
    FrontOf(w, "=" + v);
    Assoc(w, "=", v);
  }

  lemma FrontOf(w: string, rest: string)
    ensures (w + rest)[..|w|] == w
  {
  }

  lemma JoinedChunk(w: string, v: string)
    requires (forall k :: 0 <= k < |w| ==> !IsSpace(w[k])) && (forall k :: 0 <= k < |v| ==> !IsSpace(v[k]))
    ensures Chunk(w + "=" + v)
  {
    var s := w + "=" + v;
    forall i | 0 <= i < |s|
      ensures !IsSpace(s[i])
    {
      assert s[i] == if i < |w| then w[i] else if i == |w| then '=' else v[i - |w| - 1];
    }
  }

  /** A keyword in any case, an equals sign and a value up to the next space or the end: the
      value is replaced by the marker, and the text after it is redacted by itself. */
  lemma WordIsRedacted(w: string, v: string, t: string)
    requires Keyword(w) && v != [] && (forall k :: 0 <= k < |v| ==> !IsSpace(v[k]))
    requires t == [] || IsSpace(t[0])
    ensures Redact(w + "=" + v + t) == w + "=" + "[REDACTED]" + Redact(t)
  {
    WordAlone(w, v);
    RedactSplitsAtSpaces(w + "=" + v, t);
  }

  lemma AsciiWords(word: string)
    requires word in ["token", "secret", "password", "key", "TOKEN", "SECRET", "PASSWORD", "KEY"]
    ensures Keyword(word)
  {
    assert Spells("token", "token", "TOKEN") && Spells("TOKEN", "token", "TOKEN");
    assert Spells("secret", "secret", "SECRET") && Spells("SECRET", "secret", "SECRET");
    assert Spells("password", "password", "PASSWORD") && Spells("PASSWORD", "password", "PASSWORD");
    assert Spells("key", "key", "KEY") && Spells("KEY", "key", "KEY");
  }

  lemma BlankStays(c: char, t: string)
    requires IsSpace(c)
    ensures Redact([c] + t) == [c] + Redact(t)
  {
    SpaceIsNoMatch([c] + t);
    RedactMiss([c] + t);
    assert ([c] + t)[1..] == t;
  }

  /** The same for a plain blank after the value. */
  lemma BlankAfterSecret(w: string, v: string, c: char, t: string)
    requires Keyword(w) && v != [] && (forall k :: 0 <= k < |v| ==> !IsSpace(v[k])) && IsSpace(c)
    ensures Redact(w + "=" + v + ([c] + t)) == w + "=" + "[REDACTED]" + ([c] + Redact(t))
  {
    WordIsRedacted(w, v, [c] + t);
    BlankStays(c, t);
  }

  lemma AsciiSpaces(v: string, c: char)
    ensures (forall k :: 0 <= k < |v| ==> '!' <= v[k] <= '~') ==> forall k :: 0 <= k < |v| ==> !IsSpace(v[k])
    ensures c in [' ', '\t', '\n', '\r'] ==> IsSpace(c)
  {
  }

  /** In plain ASCII: the value runs over every printable character and ends before a blank, a
      tab or a line break. */
  lemma AsciiSecretIsRedacted(word: string, v: string, c: char, t: string)
    requires word in ["token", "secret", "password", "key", "TOKEN", "SECRET", "PASSWORD", "KEY"]
    requires v != [] && forall k :: 0 <= k < |v| ==> '!' <= v[k] <= '~'
    requires c in [' ', '\t', '\n', '\r']
    ensures Redact(word + "=" + v) == word + "=" + "[REDACTED]"
    ensures Redact(word + "=" + v + ([c] + t)) == word + "=" + "[REDACTED]" + ([c] + Redact(t))
  {
    AsciiWords(word);
    AsciiSpaces(v, c);
    WordAlone(word, v);
    BlankAfterSecret(word, v, c, t);
  }

  // ---------------------------------------------------------------- pairs

  /** A pair keeps everything but its commands, events, logs and verification, each of which is
      redacted by itself and stays in its place. */
  lemma PairFieldByField(p: DpoPair)
    ensures var r := RedactPair(p);
      && r.prompt == p.prompt && r.meta == p.meta && r.verification == Redact(p.verification)
      && r.chosen == p.chosen.(command := Redact(p.chosen.command))
      && |r.rejected| == |p.rejected|
      && (forall i :: 0 <= i < |p.rejected| ==>
            r.rejected[i] == p.rejected[i].(command := Redact(p.rejected[i].command)))
      && |r.context.events| == |p.context.events| && |r.context.logs| == |p.context.logs|
      && (forall i :: 0 <= i < |p.context.events| ==> r.context.events[i] == Redact(p.context.events[i]))
      && (forall i :: 0 <= i < |p.context.logs| ==> r.context.logs[i] == Redact(p.context.logs[i]))
      && r.context == p.context.(events := r.context.events, logs := r.context.logs)
  {
  }
}
