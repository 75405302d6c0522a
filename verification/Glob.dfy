/**
 * KEYS patterns: the translation of a glob into a regular expression. The
 * expression is given by its tokens; an escaped literal matches itself, `.`
 * any character but a newline, `.*` any stretch without one. Which characters
 * a `[...]` class admits is left to the regex engine (`Members`).
 */
module Glob {
  import opened Base

  datatype Token = Literal(text: string) | Any | Star | Class(text: string)

  /** Membership in a character class, by its text. */
  type Members = (string, char) -> bool

  /** The anchored expression matches the whole key. */
  predicate Matches(tokens: seq<Token>, key: string, members: Members) {
    if tokens == [] then key == []
    else
      var rest := tokens[1..];
      match tokens[0]
      case Literal(t) => |t| <= |key| && key[..|t|] == t && Matches(rest, key[|t|..], members)
      case Any => key != [] && key[0] != '\n' && Matches(rest, key[1..], members)
      case Class(t) => key != [] && members(t, key[0]) && Matches(rest, key[1..], members)
      case Star => exists n :: 0 <= n <= |key| && '\n' !in key[..n] && Matches(rest, key[n..], members)
  }

  // ------------------------------------------------------------------- globs

  /** Where the class opened at the front of `p` ends: behind the next `]`, if there is one. */
  function ClassEnd(p: string): (end: Option<nat>)
    ensures end.Some? ==> 0 < end.value <= |p| && p[end.value - 1] == ']'
    ensures forall i :: 0 <= i < (if end.Some? then end.value - 1 else |p|) ==> p[i] != ']'
  {
    if p == [] then None
    else if p[0] == ']' then Some(1)
    else match ClassEnd(p[1..])
      case None => None
      case Some(n) => Some(n + 1)
  }

  /** What a glob means, read off the pattern: an unterminated `[` and all behind it stand for themselves. */
  predicate GlobMatches(p: string, key: string, members: Members) {
    if p == [] then key == []
    else if p[0] == '*' then exists n :: 0 <= n <= |key| && GlobMatches(p[1..], key[n..], members)
    else if p[0] == '?' then key != [] && GlobMatches(p[1..], key[1..], members)
    else if p[0] == '\\' then
      if |p| == 1 then key == []
      else key != [] && key[0] == p[1] && GlobMatches(p[2..], key[1..], members)
    else if p[0] == '[' then
      match ClassEnd(p)
      case None => key == p
      case Some(end) => key != [] && members(p[..end], key[0]) && GlobMatches(p[end..], key[1..], members)
    else key != [] && key[0] == p[0] && GlobMatches(p[1..], key[1..], members)
  }

  // ----------------------------------------------------- tokens, one by one

  /** A text as literals of one character each. */
  function Singles(t: string): seq<Token> {
    if t == [] then [] else [Literal([t[0]])] + Singles(t[1..])
  }

  /** The tokens of a pattern, without any literal buffer. */
  function GlobTokens(p: string): seq<Token> {
    if p == [] then []
    else if p[0] == '*' then [Star] + GlobTokens(p[1..])
    else if p[0] == '?' then [Any] + GlobTokens(p[1..])
    else if p[0] == '\\' then
      if |p| == 1 then [] else [Literal([p[1]])] + GlobTokens(p[2..])
    else if p[0] == '[' then
      match ClassEnd(p)
      case None => Singles(p)
      case Some(end) => [Class(p[..end])] + GlobTokens(p[end..])
    else [Literal([p[0]])] + GlobTokens(p[1..])
  }

  /** Longer literals taken apart. */
  function Expand(tokens: seq<Token>): seq<Token> {
    if tokens == [] then []
    else (if tokens[0].Literal? then Singles(tokens[0].text) else [tokens[0]]) + Expand(tokens[1..])
  }

  lemma {:induction false} SinglesConcat(a: string, b: string)
    ensures Singles(a + b) == Singles(a) + Singles(b)
  {
    if a == [] {
      assert a + b == b;
    } else {
      assert (a + b)[1..] == a[1..] + b;
      SinglesConcat(a[1..], b);
    }
  }

  lemma {:induction false} ExpandConcat(a: seq<Token>, b: seq<Token>)
    ensures Expand(a + b) == Expand(a) + Expand(b)
  {
    if a == [] {
      assert a + b == b;
    } else {
      assert (a + b)[1..] == a[1..] + b;
      ExpandConcat(a[1..], b);
    }
  }

  /** A literal matches as its characters do, one after the other. */
  lemma {:induction false} SinglesMatch(t: string, rest: seq<Token>, key: string, members: Members)
    ensures Matches(Singles(t) + rest, key, members)
      <==> |t| <= |key| && key[..|t|] == t && Matches(rest, key[|t|..], members)
  {
    if t == [] {
      assert Singles(t) + rest == rest && key[0..] == key;
    } else {
      OneSingle(t, rest, key, members);
      if key != [] {
        SinglesMatch(t[1..], rest, key[1..], members);
        if |t| <= |key| {
          PrefixByHead(t, key);
        }
      }
    }
  }

  lemma LiteralFirst(text: string, rest: seq<Token>, key: string, members: Members)
    ensures Matches([Literal(text)] + rest, key, members)
      <==> |text| <= |key| && key[..|text|] == text && Matches(rest, key[|text|..], members)
  {
    assert ([Literal(text)] + rest)[1..] == rest;
  }

  /** The first character of a text, and the others. */
  lemma OneSingle(t: string, rest: seq<Token>, key: string, members: Members)
    requires t != []
    ensures Matches(Singles(t) + rest, key, members)
      <==> key != [] && key[0] == t[0] && Matches(Singles(t[1..]) + rest, key[1..], members)
  {
    var head: string := [t[0]];
    assert Singles(t) + rest == [Literal(head)] + (Singles(t[1..]) + rest);
    LiteralFirst(head, Singles(t[1..]) + rest, key, members);
    assert key != [] ==> key[..1] == [key[0]];
  }

  /** A text begins another when their heads agree and its rest begins the other's. */
  lemma PrefixByHead(t: string, key: string)
    requires 0 < |t| <= |key|
    ensures key[..|t|] == t <==> key[0] == t[0] && key[1..][..|t| - 1] == t[1..]
    ensures key[1..][|t| - 1..] == key[|t|..]
  {
    assert key[1..][..|t| - 1] == key[..|t|][1..];
    assert t == [t[0]] + t[1..] && key[..|t|] == [key[0]] + key[..|t|][1..];
  }

  /** Taking literals apart keeps the meaning. */
  lemma {:induction false} ExpandMatches(tokens: seq<Token>, key: string, members: Members)
    ensures Matches(Expand(tokens), key, members) <==> Matches(tokens, key, members)
    decreases |tokens|
  {
    if tokens != [] {
      var rest := tokens[1..];
      forall k: string ensures Matches(Expand(rest), k, members) <==> Matches(rest, k, members) {
        ExpandMatches(rest, k, members);
      }
      if tokens[0].Literal? {
        SinglesMatch(tokens[0].text, Expand(rest), key, members);
      } else {
        var e := Expand(tokens);
        assert e[0] == tokens[0] && e[1..] == Expand(rest);
      }
    }
  }

  /** A text matches itself only. */
  lemma TextMatchesItself(t: string, key: string, members: Members)
    ensures Matches(Singles(t), key, members) <==> key == t
  {
    SinglesMatch(t, [], key, members);
    assert Singles(t) + [] == Singles(t);
    assert key[..|key|] == key;
  }

  /** Token by token, the expression matches a key without newlines exactly when the glob does. */
  lemma {:induction false} TokensMatch(p: string, key: string, members: Members)
    requires '\n' !in key
    ensures Matches(GlobTokens(p), key, members) <==> GlobMatches(p, key, members)
    decreases |p|
  {
    if p == [] {
    } else if p[0] == '*' {
      StarMatches(p, key, members);
    } else if p[0] == '[' && ClassEnd(p).None? {
      TextMatchesItself(p, key, members);
    } else if p[0] == '\\' && |p| == 1 {
    } else {
      var skip := if p[0] == '\\' then 2 else if p[0] == '[' then ClassEnd(p).value else 1;
      var tokens := GlobTokens(p);
      assert tokens[1..] == GlobTokens(p[skip..]);
      if key != [] {
        assert key[..1] == [key[0]];
        TokensMatch(p[skip..], key[1..], members);
      }
    }
  }

  lemma {:induction false} StarMatches(p: string, key: string, members: Members)
    requires '\n' !in key && p != [] && p[0] == '*'
    ensures Matches(GlobTokens(p), key, members) <==> GlobMatches(p, key, members)
    decreases |p|, 0
  {
    var tokens := GlobTokens(p);
    assert tokens[0] == Star && tokens[1..] == GlobTokens(p[1..]);
    forall n | 0 <= n <= |key|
      ensures '\n' !in key[..n] && Matches(tokens[1..], key[n..], members) <==> GlobMatches(p[1..], key[n..], members)
    {
      TokensMatch(p[1..], key[n..], members);
    }
  }

  // --------------------------------------------------- patterns without classes

  /** A closed class stands somewhere in the pattern, not escaped. */
  predicate HasClass(p: string) {
    if p == [] then false
    else if p[0] == '\\' then |p| > 1 && HasClass(p[2..])
    else if p[0] == '[' then ClassEnd(p).Some?
    else HasClass(p[1..])
  }

  predicate HasClassToken(tokens: seq<Token>) {
    exists t :: t in tokens && t.Class?
  }

  /** A class token comes from a closed class, and only from one. */
  lemma {:induction false} ClassTokens(p: string)
    ensures HasClassToken(GlobTokens(p)) <==> HasClass(p)
    decreases |p|
  {
    if p == [] {
    } else if p[0] == '[' {
      match ClassEnd(p)
      case None => NoClassInText(p);
      case Some(end) => assert GlobTokens(p)[0] == Class(p[..end]);
    } else if !(p[0] == '\\' && |p| == 1) {
      var skip := if p[0] == '\\' then 2 else 1;
      ClassTokens(p[skip..]);
      var head := GlobTokens(p)[0];
      assert GlobTokens(p) == [head] + GlobTokens(p[skip..]);
      assert forall t :: t in GlobTokens(p) <==> t == head || t in GlobTokens(p[skip..]);
    }
  }

  lemma {:induction false} NoClassInText(t: string)
    ensures !HasClassToken(Singles(t))
  {
    if t != [] {
      NoClassInText(t[1..]);
      assert Singles(t)[1..] == Singles(t[1..]);
      assert forall x :: x in Singles(t) ==> x == Literal([t[0]]) || x in Singles(t[1..]);
    }
  }

  /** Without classes a pattern means the same whatever classes admit. */
  lemma {:induction false} ClassesUnused(p: string, key: string, members: Members, others: Members)
    requires !HasClass(p)
    ensures GlobMatches(p, key, members) <==> GlobMatches(p, key, others)
    decreases |p|
  {
    if p == [] || p[0] == '[' || (p[0] == '\\' && |p| == 1) {
    } else if p[0] == '*' {
      forall n | 0 <= n <= |key|
        ensures GlobMatches(p[1..], key[n..], members) <==> GlobMatches(p[1..], key[n..], others)
      {
        ClassesUnused(p[1..], key[n..], members, others);
      }
    } else if key != [] {
      ClassesUnused(p[if p[0] == '\\' then 2 else 1..], key[1..], members, others);
    }
  }

  // ------------------------------------------------------------- translation

  /** The literal buffer goes out as one escaped literal. */
  function Flush(literal: string, out: seq<Token>): seq<Token> {
    if literal == [] then out else out + [Literal(literal)]
  }

  lemma FlushExpands(literal: string, out: seq<Token>)
    ensures Expand(Flush(literal, out)) == Expand(out) + Singles(literal)
  {
    if literal == [] {
      assert Expand(out) + [] == Expand(out);
    } else {
      ExpandConcat(out, [Literal(literal)]);
      assert Expand([Literal(literal)]) == Singles(literal) + [];
    }
  }

  /** What has been emitted and buffered so far, token by token. */
  function Emitted(out: seq<Token>, literal: string): seq<Token> {
    Expand(out) + Singles(literal)
  }

  /** More text in the buffer. */
  lemma Collect(out: seq<Token>, literal: string, text: string)
    ensures Emitted(out, literal + text) == Emitted(out, literal) + Singles(text)
  {
    SinglesConcat(literal, text);
  }

  /** A token behind what has been emitted, and what remains. */
  lemma Behind(done: seq<Token>, step: seq<Token>, rest: seq<Token>, all: seq<Token>)
    requires done + (step + rest) == all
    ensures (done + step) + rest == all
  {
  }

  /**
   * `glob_to_regex`: one pass over the characters, collecting literals in a
   * buffer. Up to how literals are cut, it yields the pattern's tokens; so it
   * matches a key without newlines exactly when the glob does.
   */
  method GlobToRegex(pattern: string) returns (out: seq<Token>)
    ensures Expand(out) == GlobTokens(pattern)
    ensures forall key: string, members: Members :: '\n' !in key ==>
      (Matches(out, key, members) <==> GlobMatches(pattern, key, members))
  {
    out := [];
    var literal: string := [];
    var i := 0;
    while i < |pattern|
      invariant i <= |pattern|
      invariant Emitted(out, literal) + GlobTokens(pattern[i..]) == GlobTokens(pattern)
    {
      var wild, text, next := NextPiece(pattern, i);
      ghost var done := Emitted(out, literal);
      if wild.Some? {
        out := EmitToken(wild.value, literal, out);
        literal := [];
        Behind(done, [wild.value], GlobTokens(pattern[next..]), GlobTokens(pattern));
      } else {
        Collect(out, literal, text);
        literal := literal + text;
        Behind(done, Singles(text), GlobTokens(pattern[next..]), GlobTokens(pattern));
      }
      i := next;
    }
    assert pattern[i..] == [] && GlobTokens([]) == [];
    FlushExpands(literal, out);
    out := Flush(literal, out);
    TranslationPreservesMeaning(pattern, out);
  }

  /**
   * The next character decides: a wildcard or a closed class is a token; an
   * escaped character, an unterminated class and anything else are text.
   */
  method NextPiece(pattern: string, i: nat) returns (wild: Option<Token>, text: string, next: nat)
    requires i < |pattern|
    ensures i < next <= |pattern| && (wild.Some? ==> !wild.value.Literal?)
    ensures (if wild.Some? then [wild.value] else Singles(text)) + GlobTokens(pattern[next..])
      == GlobTokens(pattern[i..])
  {
    ghost var p := pattern[i..];
    wild, text, next := None, [], i + 1;
    assert p[1..] == pattern[i + 1..];
    match pattern[i] {
      case '*' =>
        wild := Some(Star);
      case '?' =>
        wild := Some(Any);
      case '\\' =>
        if i + 1 < |pattern| {
          text, next := [pattern[i + 1]], i + 2;
          assert p[2..] == pattern[i + 2..] && Singles(text) == [Literal(text)];
        }
      case '[' =>
        var end := ScanClass(pattern, i);
        if end.Some? {
          assert p[..end.value - i] == pattern[i..end.value] && p[end.value - i..] == pattern[end.value..];
          wild, next := Some(Class(pattern[i..end.value])), end.value;
        } else {
          text, next := pattern[i..], |pattern|;
        }
      case c =>
        text := [c];
        assert Singles(text) == [Literal(text)];
    }
  }

  /** Flushes the buffer, then emits a token. */
  method EmitToken(token: Token, literal: string, out: seq<Token>) returns (r: seq<Token>)
    requires !token.Literal?
    ensures Emitted(r, []) == Emitted(out, literal) + [token]
  {
    FlushExpands(literal, out);
    ExpandConcat(Flush(literal, out), [token]);
    r := Flush(literal, out) + [token];
  }

  /** Scans from a `[` for the `]` that closes it, stepping over a leading `^`. */
  method ScanClass(pattern: string, open: nat) returns (end: Option<nat>)
    requires open < |pattern| && pattern[open] == '['
    ensures match ClassEnd(pattern[open..])
      case None => end == None
      case Some(n) => end == Some(open + n)
  {
    var j := open + 1;
    if j < |pattern| && pattern[j] == '^' {
      j := j + 1;
    }
    ghost var p := pattern[open..];
    while j < |pattern|
      invariant open < j <= |pattern|
      invariant forall i :: 0 <= i < j - open ==> p[i] != ']'
    {
      if pattern[j] == ']' {
        assert p[j - open] == ']';
        return Some(j + 1);
      }
      j := j + 1;
    }
    return None;
  }

  /**
   * Translation preserves meaning: for every pattern and every key without a
   * newline, what the buffered pass yields matches exactly when the glob does.
   */
  lemma TranslationPreservesMeaning(pattern: string, out: seq<Token>)
    requires Expand(out) == GlobTokens(pattern)
    ensures forall key: string, members: Members :: '\n' !in key ==>
      (Matches(out, key, members) <==> GlobMatches(pattern, key, members))
  {
    forall key: string, members: Members | '\n' !in key
      ensures Matches(out, key, members) <==> GlobMatches(pattern, key, members)
    {
      ExpandMatches(out, key, members);
      TokensMatch(pattern, key, members);
    }
  }

  /**
   * For a pattern without a closed class nothing is assumed about classes: the
   * expression has none, and matches a key without newlines exactly when the
   * glob does.
   */
  lemma ClassFreeTranslation(pattern: string, out: seq<Token>, key: string, members: Members, others: Members)
    requires Expand(out) == GlobTokens(pattern) && !HasClass(pattern) && '\n' !in key
    ensures !HasClassToken(out)
    ensures Matches(out, key, members) <==> GlobMatches(pattern, key, others)
  {
    TranslationPreservesMeaning(pattern, out);
    ClassesUnused(pattern, key, members, others);
    ClassTokens(pattern);
    ExpandKeepsClasses(out);
  }

  lemma {:induction false} ExpandKeepsClasses(tokens: seq<Token>)
    ensures HasClassToken(tokens) ==> HasClassToken(Expand(tokens))
  {
    if tokens != [] {
      ExpandKeepsClasses(tokens[1..]);
      assert forall t :: t in tokens ==> t == tokens[0] || t in tokens[1..];
      assert forall t :: t in Expand(tokens[1..]) ==> t in Expand(tokens);
      if tokens[0].Class? {
        assert Expand(tokens)[0] == tokens[0];
      }
    }
  }

  /** And newlines are the whole difference: a key agrees on every pattern if and only if it has none. */
  lemma NewlinesAreNeverWild(key: string, members: Members)
    ensures (forall p: string :: Matches(GlobTokens(p), key, members) <==> GlobMatches(p, key, members))
      <==> '\n' !in key
  {
    if '\n' !in key {
      forall p: string ensures Matches(GlobTokens(p), key, members) <==> GlobMatches(p, key, members) {
        TokensMatch(p, key, members);
      }
    } else {
      var star: string := ['*'];
      assert star[1..] == [] && GlobTokens(star) == [Star] && [Star][1..] == [];
      assert key[|key|..] == [] && key[..|key|] == key;
      assert GlobMatches([], key[|key|..], members);
      assert GlobMatches(star, key, members);
      assert !Matches([Star], key, members);
    }
  }
}
