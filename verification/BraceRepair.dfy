/** `autofix_text`: a `}` that closes no `{` is taken for a misused block close and becomes `end`. */
module BraceRepair {
  import opened Basics

  /** A character of code, or a whole comment or string literal. */
  datatype Lexeme = Code(c: char) | Skipped(text: string)

  // ----- The lexer, as a reference

  /** The characters before the next newline. */
  function LineLength(s: string): (k: nat)
    ensures k <= |s|
  {
    if s == [] || s[0] == '\n' then 0 else 1 + LineLength(s[1..])
  }

  /** The characters up to and with the next close of a block comment, or all of them. */
  function BlockRest(s: string): (k: nat)
    ensures k <= |s|
  {
    if |s| < 2 then |s| else if s[0] == '*' && s[1] == '/' then 2 else 1 + BlockRest(s[1..])
  }

  /** The characters up to and with the closing quote, or all of them; a backslash hides the next one. */
  function StringRest(s: string): (k: nat)
    ensures k <= |s|
  {
    if s == [] then 0
    else if s[0] == '"' then 1
    else if s[0] == '\\' then (if |s| == 1 then 1 else 2 + StringRest(s[2..]))
    else 1 + StringRest(s[1..])
  }

  predicate StartsLineComment(s: string) { |s| > 1 && s[0] == '/' && s[1] == '/' }

  predicate StartsBlockComment(s: string) { |s| > 1 && s[0] == '/' && s[1] == '*' }

  predicate StartsString(s: string) { |s| > 0 && s[0] == '"' }

  /** The length of the comment or string literal `s` starts with; 0 when it starts with code. */
  function SkipLength(s: string): (k: nat)
    ensures k <= |s|
  {
    if StartsLineComment(s) then LineLength(s)
    else if StartsBlockComment(s) then 2 + BlockRest(s[2..])
    else if StartsString(s) then 1 + StringRest(s[1..])
    else 0
  }

  function Lex(s: string): seq<Lexeme>
    decreases |s|
  {
    if s == [] then []
    else
      var k := SkipLength(s);
      if k > 0 then [Skipped(s[..k])] + Lex(s[k..]) else [Code(s[0])] + Lex(s[1..])
  }

  function Text(t: Lexeme): string {
    match t
    case Code(c) => [c]
    case Skipped(text) => text
  }

  function Render(ts: seq<Lexeme>): string {
    if ts == [] then [] else Text(ts[0]) + Render(ts[1..])
  }

  // ----- The repair, as a function on lexemes

  /** What follows a replaced brace: a semicolon right behind it goes with it. */
  function AfterClose(ts: seq<Lexeme>): seq<Lexeme> {
    if ts != [] && ts[0] == Code(';') then ts[1..] else ts
  }

  function Head(ts: seq<Lexeme>): string {
    if ts == [] then [] else if Text(ts[0]) == [] then [] else [Text(ts[0])[0]]
  }

  /** `tail`, after a space when the text of `rest` starts with a character that `word` accepts. */
  function Spaced(rest: seq<Lexeme>, tail: seq<Lexeme>, word: char -> bool): seq<Lexeme> {
    if Head(rest) != [] && word(Head(rest)[0]) then [Code(' ')] + tail else tail
  }

  function WithEnd(rest: seq<Lexeme>, tail: seq<Lexeme>, word: char -> bool): seq<Lexeme> {
    [Code('e')] + ([Code('n')] + ([Code('d')] + Spaced(rest, tail, word)))
  }

  /** `depth` counts the braces open before `ts`. */
  function Repair(ts: seq<Lexeme>, depth: nat, word: char -> bool): seq<Lexeme>
    decreases |ts|
  {
    if ts == [] then []
    else if ts[0] == Code('{') then [ts[0]] + Repair(ts[1..], depth + 1, word)
    else if ts[0] == Code('}') && depth > 0 then [ts[0]] + Repair(ts[1..], depth - 1, word)
    else if ts[0] == Code('}') then
      WithEnd(AfterClose(ts[1..]), Repair(AfterClose(ts[1..]), 0, word), word)
    else [ts[0]] + Repair(ts[1..], depth, word)
  }

  /** How many braces the repair replaces. */
  function Replaced(ts: seq<Lexeme>, depth: nat): nat {
    if ts == [] then 0
    else if ts[0] == Code('{') then Replaced(ts[1..], depth + 1)
    else if ts[0] == Code('}') && depth > 0 then Replaced(ts[1..], depth - 1)
    else if ts[0] == Code('}') then 1 + Replaced(ts[1..], 0)
    else Replaced(ts[1..], depth)
  }

  function Fixed(code: string, word: char -> bool): string {
    Render(Repair(Lex(code), 0, word))
  }

  // ----- The single pass of the source

  method FindNewline(code: string, i: nat) returns (j: nat)
    requires i <= |code|
    ensures j == i + LineLength(code[i..])
  {
    j := i;
    while j < |code| && code[j] != '\n'
      invariant i <= j <= |code|
      invariant LineLength(code[i..]) == j - i + LineLength(code[j..])
    {
      assert code[j..][1..] == code[j + 1..];
      j := j + 1;
    }
  }

  method FindBlockEnd(code: string, i: nat) returns (j: nat)
    requires i <= |code|
    ensures j == i + BlockRest(code[i..])
  {
    j := i;
    while j < |code|
      invariant i <= j <= |code|
      invariant BlockRest(code[i..]) == j - i + BlockRest(code[j..])
    {
      if j + 1 < |code| && code[j] == '*' && code[j + 1] == '/' {
        return j + 2;
      }
      assert code[j..][1..] == code[j + 1..];
      j := j + 1;
    }
  }

  method FindStringEnd(code: string, i: nat) returns (j: nat)
    requires i <= |code|
    ensures j == i + StringRest(code[i..])
  {
    j := i;
    while j < |code| && code[j] != '"'
      invariant i <= j <= |code| + 1
      invariant j <= |code| ==> StringRest(code[i..]) == j - i + StringRest(code[j..])
      invariant j > |code| ==> StringRest(code[i..]) == |code| - i
    {
      if code[j] == '\\' {
        assert j + 2 <= |code| ==> code[j..][2..] == code[j + 2..];
        j := j + 2;
      } else {
        assert code[j..][1..] == code[j + 1..];
        j := j + 1;
      }
    }
    j := if j + 1 < |code| then j + 1 else |code|;
  }

  lemma LexHead(s: string)
    requires s != []
    ensures Lex(s) != [] && Head(Lex(s)) == [s[0]]
    ensures s[0] == ';' ==> Lex(s) == [Code(';')] + Lex(s[1..])
  {
  }

  /** What the pass still has to write when its cursor is at `i`, and how many braces it will replace. */
  ghost function Pending(code: string, i: nat, depth: nat, word: char -> bool): string
    requires i <= |code|
  {
    Render(Repair(Lex(code[i..]), depth, word))
  }

  ghost function PendingBraces(code: string, i: nat, depth: nat): nat
    requires i <= |code|
  {
    Replaced(Lex(code[i..]), depth)
  }

  /** The repaired text, and how many braces were replaced (the note of the source counts them). */
  method AutofixText(code: string, word: char -> bool) returns (fixed: string, braces: nat)
    ensures fixed == Fixed(code, word)
    ensures braces == Replaced(Lex(code), 0)
  {
    hide Pending, PendingBraces, Repair, Replaced, Lex, Render, StringRest, BlockRest, LineLength;
    PassBegins(code, word);
    if '}' !in code {
      NothingToRepair(code, 0, word);
      return code, 0;
    }
    fixed, braces := [], 0;
    var depth: nat, i := 0, 0;
    while i < |code|
      invariant i <= |code|
      invariant fixed + Pending(code, i, depth, word) == Pending(code, 0, 0, word)
      invariant braces + PendingBraces(code, i, depth) == PendingBraces(code, 0, 0)
    {
      var c := code[i];
      var j := i;
      if c == '/' && i + 1 < |code| && code[i + 1] == '/' {
        j := FindNewline(code, i);
      } else if c == '/' && i + 1 < |code| && code[i + 1] == '*' {
        assert code[i..][2..] == code[i + 2..];
        j := FindBlockEnd(code, i + 2);
      } else if c == '"' {
        assert code[i..][1..] == code[i + 1..];
        j := FindStringEnd(code, i + 1);
      }
      assert j == i + SkipLength(code[i..]);
      if j > i {
        PassSkipped(code, i, j, depth, word);
        Regroup(fixed, code[i..j], Pending(code, j, depth, word));
        fixed := fixed + code[i..j];
        i := j;
      } else if c == '{' {
        PassCode(code, i, depth, depth + 1, word);
        Regroup(fixed, [c], Pending(code, i + 1, depth + 1, word));
        depth := depth + 1;
        fixed := fixed + [c];
        i := i + 1;
      } else if c == '}' && depth > 0 {
        PassCode(code, i, depth, depth - 1, word);
        Regroup(fixed, [c], Pending(code, i + 1, depth - 1, word));
        depth := depth - 1;
        fixed := fixed + [c];
        i := i + 1;
      } else if c == '}' {
        PassClose(code, i, word);
        braces := braces + 1;
        ghost var start := fixed;
        fixed := fixed + "end";
        i := i + 1;
        if i < |code| && code[i] == ';' {
          i := i + 1;
        }
        if i < |code| && word(code[i]) {
          Regroup(start + "end", " ", Pending(code, i, 0, word));
          Regroup(start, "end", " " + Pending(code, i, 0, word));
          fixed := fixed + " ";
        } else {
          Regroup(start, "end", Pending(code, i, 0, word));
        }
      } else {
        PassCode(code, i, depth, depth, word);
        Regroup(fixed, [c], Pending(code, i + 1, depth, word));
        fixed := fixed + [c];
        i := i + 1;
      }
    }
    PassEnds(code, depth, word);
  }

  lemma Regroup(a: string, b: string, c: string)
    ensures a + (b + c) == (a + b) + c
  {
  }

  lemma PassBegins(code: string, word: char -> bool)
    ensures Pending(code, 0, 0, word) == Render(Repair(Lex(code), 0, word))
    ensures PendingBraces(code, 0, 0) == Replaced(Lex(code), 0)
  {
    assert code[0..] == code;
  }

  lemma PassEnds(code: string, depth: nat, word: char -> bool)
    ensures Pending(code, |code|, depth, word) == [] && PendingBraces(code, |code|, depth) == 0
  {
  }

  /** The lexer takes one comment, string literal or character at a time. */
  lemma LexStep(s: string) returns (first: Lexeme, rest: string)
    requires s != []
    ensures s == Text(first) + rest && |rest| < |s| && Lex(s) == [first] + Lex(rest)
    ensures first == Code('}') ==> '}' in s
  {
    var k := if SkipLength(s) > 0 then SkipLength(s) else 1;
    first, rest := if SkipLength(s) > 0 then Skipped(s[..k]) else Code(s[0]), s[k..];
  }

  /** A text without any closing brace needs no pass. */
  lemma {:induction false} NothingToRepair(s: string, depth: nat, word: char -> bool)
    requires '}' !in s
    ensures Render(Repair(Lex(s), depth, word)) == s && Replaced(Lex(s), depth) == 0
    decreases |s|
  {
    if s != [] {
      hide Lex;
      var first, rest := LexStep(s);
      var next := if first == Code('{') then depth + 1 else depth;
      NothingToRepair(rest, next, word);
      assert ([first] + Lex(rest))[1..] == Lex(rest);
      assert Repair(Lex(s), depth, word) == [first] + Repair(Lex(rest), next, word);
      assert ([first] + Repair(Lex(rest), next, word))[1..] == Repair(Lex(rest), next, word);
    } else {
      assert Lex(s) == [];
    }
  }

  lemma PassSkipped(code: string, i: nat, j: nat, depth: nat, word: char -> bool)
    requires i < j <= |code| && j == i + SkipLength(code[i..])
    ensures Pending(code, i, depth, word) == code[i..j] + Pending(code, j, depth, word)
    ensures PendingBraces(code, i, depth) == PendingBraces(code, j, depth)
  {
    var s := code[i..];
    assert s[..j - i] == code[i..j] && s[j - i..] == code[j..];
    var first, rest := Skipped(code[i..j]), Lex(code[j..]);
    assert Lex(s) == [first] + rest;
    assert Repair(Lex(s), depth, word) == [first] + Repair(rest, depth, word);
  }

  /** A character of code that is written as it is. */
  lemma PassCode(code: string, i: nat, depth: nat, next: nat, word: char -> bool)
    requires i < |code| && SkipLength(code[i..]) == 0
    requires code[i] == '}' ==> depth > 0
    requires next == if code[i] == '{' then depth + 1 else if code[i] == '}' then depth - 1 else depth
    ensures Pending(code, i, depth, word) == [code[i]] + Pending(code, i + 1, next, word)
    ensures PendingBraces(code, i, depth) == PendingBraces(code, i + 1, next)
  {
    var s := code[i..];
    assert s[1..] == code[i + 1..];
    var first, rest := Code(code[i]), Lex(code[i + 1..]);
    assert Lex(s) == [first] + rest;
    assert Repair(Lex(s), depth, word) == [first] + Repair(rest, next, word);
  }

  /** A brace that closes no brace. */
  lemma PassClose(code: string, i: nat, word: char -> bool)
    requires i < |code| && code[i] == '}'
    ensures var k := if i + 1 < |code| && code[i + 1] == ';' then i + 2 else i + 1;
            && Pending(code, i, 0, word) ==
                 "end" + (if k < |code| && word(code[k]) then " " + Pending(code, k, 0, word)
                          else Pending(code, k, 0, word))
            && PendingBraces(code, i, 0) == 1 + PendingBraces(code, k, 0)
  {
    var s := code[i..];
    assert s[1..] == code[i + 1..];
    var rest := Lex(code[i + 1..]);
    assert Lex(s) == [Code('}')] + rest;
    var k := if i + 1 < |code| && code[i + 1] == ';' then i + 2 else i + 1;
    if i + 1 < |code| {
      LexHead(code[i + 1..]);
      assert code[i + 1..][1..] == code[i + 2..];
    }
    var after := Lex(code[k..]);
    assert AfterClose(rest) == after;
    if k < |code| {
      LexHead(code[k..]);
    }
    RenderEnd(after, Repair(after, 0, word), word);
    assert Replaced(rest, 0) == Replaced(after, 0);
  }

  lemma RenderEnd(after: seq<Lexeme>, repaired: seq<Lexeme>, word: char -> bool)
    ensures Render(WithEnd(after, repaired, word)) ==
              "end" + (if Head(after) != [] && word(Head(after)[0]) then " " + Render(repaired) else Render(repaired))
  {
    hide Render, Head;
    var spaced := Spaced(after, repaired, word);
    PlainInFront(' ', repaired);
    PlainInFront('d', spaced);
    PlainInFront('n', [Code('d')] + spaced);
    PlainInFront('e', [Code('n')] + ([Code('d')] + spaced));
    assert "e" + ("n" + ("d" + Render(spaced))) == "end" + Render(spaced);
  }

  /** A plain character in front of lexemes adds itself to the text and nothing else. */
  lemma PlainInFront(c: char, ts: seq<Lexeme>)
    ensures Render([Code(c)] + ts) == [c] + Render(ts)
    ensures c != '{' && c != '}' ==> Replaced([Code(c)] + ts, 0) == Replaced(ts, 0)
    ensures SkippedTexts([Code(c)] + ts) == SkippedTexts(ts)
  {
    assert ([Code(c)] + ts)[1..] == ts;
  }

  // ----- Reading a text back

  lemma {:induction false} RenderLex(s: string)
    ensures Render(Lex(s)) == s
    decreases |s|
  {
    if s != [] {
      hide Lex;
      var first, rest := LexStep(s);
      RenderLex(rest);
      assert ([first] + Lex(rest))[1..] == Lex(rest);
    }
  }

  /** The lexemes are the ones the lexer finds in their own text. */
  ghost predicate Readable(ts: seq<Lexeme>) {
    ts != [] ==> Starts(ts[0], Render(ts[1..])) && Readable(ts[1..])
  }

  /** `t` is the lexeme the lexer finds in front of `rest`. */
  ghost predicate Starts(t: Lexeme, rest: string) {
    Text(t) != [] && SkipLength(Text(t) + rest) == if t.Code? then 0 else |Text(t)|
  }

  lemma LexOne(t: Lexeme, rest: string)
    requires Starts(t, rest)
    ensures Lex(Text(t) + rest) == [t] + Lex(rest)
  {
    var s, k := Text(t) + rest, |Text(t)|;
    assert s[..k] == Text(t) && s[k..] == rest;
  }

  lemma {:induction false} ReadableReads(ts: seq<Lexeme>)
    requires Readable(ts)
    ensures Lex(Render(ts)) == ts
  {
    if ts != [] {
      ReadableReads(ts[1..]);
      LexOne(ts[0], Render(ts[1..]));
      assert ts == [ts[0]] + ts[1..];
    }
  }

  lemma {:induction false} LexIsReadable(s: string)
    ensures Readable(Lex(s))
    decreases |s|
  {
    if s != [] {
      var k := if SkipLength(s) > 0 then SkipLength(s) else 1;
      var first := if SkipLength(s) > 0 then Skipped(s[..k]) else Code(s[0]);
      RenderLex(s[k..]);
      assert Text(first) + s[k..] == s;
      LexIsReadable(s[k..]);
      assert Lex(s) == [first] + Lex(s[k..]);
    }
  }

  // ----- What comments, strings and code are, said without the lexer

  /** How many backslashes stand right in front of position `i`. */
  function Backslashes(s: string, i: nat): nat
    requires i <= |s|
  {
    if i > 0 && s[i - 1] == '\\' then 1 + Backslashes(s, i - 1) else 0
  }

  predicate Quote(s: string, i: nat)
    requires i < |s|
  {
    s[i] == '"' && Backslashes(s, i) % 2 == 0
  }

  predicate Closer(s: string, i: nat)
    requires i + 1 < |s|
  {
    s[i] == '*' && s[i + 1] == '/'
  }

  /** From two slashes to a newline, which does not belong to it, or to the end of the text. */
  ghost predicate LineComment(t: string, rest: string) {
    |t| >= 2 && t[..2] == "//" && '\n' !in t && (rest == [] || rest[0] == '\n')
  }

  /** To the first closer behind the opener, or to the end of the text. */
  ghost predicate BlockComment(t: string, rest: string) {
    && |t| >= 2 && t[..2] == "/*" && (forall i :: 2 <= i < |t| - 2 ==> !Closer(t, i))
    && (EndsWith(t[2..], "*/") || rest == [])
  }

  /** To the first quote that an even number of backslashes precedes, or to the end of the text. */
  ghost predicate StringLiteral(t: string, rest: string) {
    && t != [] && t[0] == '"' && (forall i :: 1 <= i < |t| - 1 ==> !Quote(t, i))
    && ((|t| >= 2 && Quote(t, |t| - 1)) || rest == [])
  }

  /** A code character opens none of the three. */
  ghost predicate Spelled(t: Lexeme, rest: string) {
    match t
    case Code(c) => c != '"' && (c == '/' && rest != [] ==> rest[0] != '/' && rest[0] != '*')
    case Skipped(text) => LineComment(text, rest) || BlockComment(text, rest) || StringLiteral(text, rest)
  }

  ghost predicate AllSpelled(ts: seq<Lexeme>) {
    ts != [] ==> Spelled(ts[0], Render(ts[1..])) && AllSpelled(ts[1..])
  }

  lemma {:induction false} LineLengthIs(s: string)
    ensures var k := LineLength(s); (forall i :: 0 <= i < k ==> s[i] != '\n') && (k == |s| || s[k] == '\n')
  {
    if s != [] && s[0] != '\n' {
      LineLengthIs(s[1..]);
    }
  }

  lemma {:induction false} BlockRestIs(s: string)
    ensures var k := BlockRest(s);
            && (forall i :: 0 <= i < k - 2 ==> !Closer(s, i))
            && ((k >= 2 && Closer(s, k - 2)) || (k == |s| && forall i :: 0 <= i < |s| - 1 ==> !Closer(s, i)))
  {
    if |s| >= 2 && !Closer(s, 0) {
      BlockRestIs(s[1..]);
      assert forall i :: 0 < i < |s| - 1 ==> Closer(s, i) == Closer(s[1..], i - 1);
    }
  }

  /** Cutting off a prefix whose backslashes come in pairs changes no parity. */
  lemma {:induction false} BackslashesBehind(s: string, cut: nat, i: nat)
    requires cut <= i <= |s|
    requires Backslashes(s, cut) % 2 == 0
    ensures Backslashes(s[cut..], i - cut) % 2 == Backslashes(s, i) % 2
    decreases i
  {
    if i > cut && s[i - 1] == '\\' {
      BackslashesBehind(s, cut, i - 1);
    }
  }

  lemma {:induction false} BackslashesInFront(t: string, rest: string, i: nat)
    requires i <= |t|
    ensures Backslashes(t + rest, i) == Backslashes(t, i)
  {
    if i > 0 && t[i - 1] == '\\' {
      BackslashesInFront(t, rest, i - 1);
    }
  }

  lemma QuoteBehind(s: string, cut: nat, i: nat)
    requires cut <= i < |s| && Backslashes(s, cut) % 2 == 0
    ensures Quote(s[cut..], i - cut) == Quote(s, i)
  {
    BackslashesBehind(s, cut, i);
  }

  lemma {:induction false} StringRestIs(s: string)
    ensures var k := StringRest(s);
            && (forall i :: 0 <= i < k - 1 ==> !Quote(s, i))
            && ((k >= 1 && Quote(s, k - 1)) || (k == |s| && forall i :: 0 <= i < |s| ==> !Quote(s, i)))
    decreases |s|
  {
    if s != [] && s[0] != '"' && !(s[0] == '\\' && |s| == 1) {
      var cut := if s[0] == '\\' then 2 else 1;
      StringRestIs(s[cut..]);
      assert Backslashes(s, 0) == 0 && Backslashes(s, 1) == if s[0] == '\\' then 1 else 0;
      assert cut == 2 ==> !Quote(s, 1) && Backslashes(s, 2) % 2 == 0;
      forall i | cut <= i < |s| ensures Quote(s[cut..], i - cut) == Quote(s, i) {
        QuoteBehind(s, cut, i);
      }
    }
  }

  lemma Parts(t: string, rest: string)
    ensures forall i :: 0 <= i < |t| ==> (t + rest)[i] == t[i]
    ensures rest != [] ==> (t + rest)[|t|] == rest[0]
    ensures |t| >= 2 ==> t[..2] == [t[0], t[1]]
  {
  }

  lemma LineIff(t: string, rest: string)
    requires StartsLineComment(t + rest) && t != []
    ensures LineLength(t + rest) == |t| <==> LineComment(t, rest)
  {
    var s := t + rest;
    Parts(t, rest);
    LineLengthIs(s);
    assert LineLength(s) >= 2;
  }

  /** Where a block comment at the start of `s` ends. */
  lemma BlockEnds(s: string)
    requires |s| >= 2
    ensures var k := 2 + BlockRest(s[2..]);
            && 2 <= k <= |s| && (forall i :: 2 <= i < k - 2 ==> !Closer(s, i))
            && ((k >= 4 && Closer(s, k - 2)) || (k == |s| && forall i :: 2 <= i < |s| - 1 ==> !Closer(s, i)))
  {
    BlockRestIs(s[2..]);
    forall i | 2 <= i < |s| - 1 ensures Closer(s, i) == Closer(s[2..], i - 2) {
    }
  }

  lemma EndsInCloser(t: string)
    requires |t| >= 2
    ensures EndsWith(t[2..], "*/") <==> |t| >= 4 && Closer(t, |t| - 2)
  {
    var u := t[2..];
    assert "*/"[0] == '*' && "*/"[1] == '/';
    if |t| >= 4 {
      assert u[|u| - 2] == t[|t| - 2] && u[|u| - 1] == t[|t| - 1];
      assert EndsWith(u, "*/") ==> u[|u| - 2 + 0] == '*' && u[|u| - 2 + 1] == '/';
    }
  }

  lemma BlockIff(t: string, rest: string)
    requires StartsBlockComment(t + rest) && t != []
    ensures 2 + BlockRest((t + rest)[2..]) == |t| <==> BlockComment(t, rest)
  {
    hide BlockRest, EndsWith, Closer;
    var s := t + rest;
    Parts(t, rest);
    BlockEnds(s);
    forall i | 2 <= i < |t| - 1 ensures Closer(s, i) == Closer(t, i) {
      SameCloser(t, rest, i);
    }
    if |t| >= 2 {
      EndsInCloser(t);
    }
  }

  lemma SameCloser(t: string, rest: string, i: nat)
    requires i + 1 < |t|
    ensures Closer(t + rest, i) == Closer(t, i)
  {
  }

  lemma StringIff(t: string, rest: string)
    requires StartsString(t + rest) && t != []
    ensures 1 + StringRest((t + rest)[1..]) == |t| <==> StringLiteral(t, rest)
  {
    hide Quote, Backslashes;
    var s := t + rest;
    Parts(t, rest);
    StringRestIs(s[1..]);
    var k := 1 + StringRest(s[1..]);
    forall i | 1 <= i < |s| ensures Quote(s[1..], i - 1) == Quote(s, i) {
      NoBackslash(s);
      QuoteBehind(s, 1, i);
    }
    assert forall i :: 1 <= i < k - 1 ==> !Quote(s, i);
    assert (k >= 2 && Quote(s, k - 1)) || (k == |s| && forall i :: 1 <= i < |s| ==> !Quote(s, i));
    forall i | 1 <= i < |t| ensures Quote(s, i) == Quote(t, i) {
      QuoteInFront(t, rest, i);
    }
  }

  lemma NoBackslash(s: string)
    requires s != [] && s[0] == '"'
    ensures Backslashes(s, 1) == 0
  {
  }

  lemma QuoteInFront(t: string, rest: string, i: nat)
    requires i < |t|
    ensures Quote(t + rest, i) == Quote(t, i)
  {
    BackslashesInFront(t, rest, i);
  }

  lemma SpelledIff(t: Lexeme, rest: string)
    requires Text(t) != []
    ensures Starts(t, rest) <==> Spelled(t, rest)
  {
    hide LineLength, BlockRest, StringRest;
    var x := Text(t);
    var s := x + rest;
    if t.Code? {
      CodeStarts(s);
    } else if StartsLineComment(s) {
      LineIff(x, rest);
    } else if StartsBlockComment(s) {
      BlockIff(x, rest);
    } else if StartsString(s) {
      StringIff(x, rest);
    }
  }

  lemma CodeStarts(s: string)
    requires s != []
    ensures SkipLength(s) == 0 <==> !StartsLineComment(s) && !StartsBlockComment(s) && !StartsString(s)
  {
  }

  /** The lexer finds the one way there is of cutting a text into comments, strings and code. */
  lemma {:induction false} LexIsSpelledIff(s: string, ts: seq<Lexeme>)
    ensures ts == Lex(s) <==> Render(ts) == s && AllSpelled(ts)
  {
    RenderLex(s);
    LexIsReadable(s);
    ReadableIsSpelled(Lex(s));
    if AllSpelled(ts) {
      SpelledIsReadable(ts);
      ReadableReads(ts);
    }
  }

  lemma {:induction false} ReadableIsSpelled(ts: seq<Lexeme>)
    requires Readable(ts)
    ensures AllSpelled(ts)
  {
    hide Starts, Spelled;
    if ts != [] {
      StartsHasText(ts[0], Render(ts[1..]));
      SpelledIff(ts[0], Render(ts[1..]));
      ReadableIsSpelled(ts[1..]);
    }
  }

  lemma StartsHasText(t: Lexeme, rest: string)
    ensures Starts(t, rest) ==> Text(t) != []
    ensures Spelled(t, rest) ==> Text(t) != []
  {
  }

  lemma {:induction false} SpelledIsReadable(ts: seq<Lexeme>)
    requires AllSpelled(ts)
    ensures Readable(ts)
  {
    hide Starts, Spelled;
    if ts != [] {
      StartsHasText(ts[0], Render(ts[1..]));
      SpelledIff(ts[0], Render(ts[1..]));
      SpelledIsReadable(ts[1..]);
    }
  }

  /** What a text after a comment or string literal may become without disturbing it. */
  predicate SameBoundary(tail: string, tail': string) {
    && (tail == [] ==> tail' == [])
    && (tail != [] && tail[0] == '\n' ==> tail' != [] && tail'[0] == '\n')
  }

  lemma {:induction false} LineTail(t: string, tail: string, tail': string)
    requires LineLength(t + tail) == |t| && SameBoundary(tail, tail')
    ensures LineLength(t + tail') == |t|
  {
    if t == [] {
      assert t + tail == tail && t + tail' == tail';
    } else {
      assert (t + tail)[1..] == t[1..] + tail && (t + tail')[1..] == t[1..] + tail';
      LineTail(t[1..], tail, tail');
    }
  }

  lemma {:induction false} BlockTail(t: string, tail: string, tail': string)
    requires BlockRest(t + tail) == |t| && SameBoundary(tail, tail')
    ensures BlockRest(t + tail') == |t|
  {
    if tail == [] {
      assert t + tail == t && t + tail' == t;
    } else if |t| <= 1 {
      assert false;
    } else if !(t[0] == '*' && t[1] == '/') {
      assert (t + tail)[1..] == t[1..] + tail && (t + tail')[1..] == t[1..] + tail';
      BlockTail(t[1..], tail, tail');
    }
  }

  lemma {:induction false} StringTail(t: string, tail: string, tail': string)
    requires StringRest(t + tail) == |t| && SameBoundary(tail, tail')
    ensures StringRest(t + tail') == |t|
  {
    if tail == [] {
      assert t + tail == t && t + tail' == t;
    } else if t == [] {
      assert false;
    } else if t[0] == '"' {
    } else if t[0] == '\\' {
      if |t| == 1 {
        assert false;
      } else {
        assert (t + tail)[2..] == t[2..] + tail && (t + tail')[2..] == t[2..] + tail';
        StringTail(t[2..], tail, tail');
      }
    } else {
      assert (t + tail)[1..] == t[1..] + tail && (t + tail')[1..] == t[1..] + tail';
      StringTail(t[1..], tail, tail');
    }
  }

  lemma LongEnough(t: string, tail: string)
    requires StartsLineComment(t + tail) && LineLength(t + tail) == |t|
    ensures |t| >= 2
  {
    assert (t + tail)[1..][1..] == (t + tail)[2..];
    assert LineLength((t + tail)[1..]) >= 1;
  }

  lemma SkipTail(t: string, tail: string, tail': string)
    requires t != [] && SkipLength(t + tail) == |t| && SameBoundary(tail, tail')
    ensures SkipLength(t + tail') == |t|
  {
    if StartsLineComment(t + tail) {
      LongEnough(t, tail);
      LineTail(t, tail, tail');
    } else if StartsBlockComment(t + tail) {
      if |t| == 1 {
        assert false;
      }
      assert (t + tail)[2..] == t[2..] + tail && (t + tail')[2..] == t[2..] + tail';
      BlockTail(t[2..], tail, tail');
    } else {
      assert (t + tail)[1..] == t[1..] + tail && (t + tail')[1..] == t[1..] + tail';
      StringTail(t[1..], tail, tail');
    }
  }

  // ----- What the repair promises

  /** Closing braces of code minus opening ones. */
  function Excess(ts: seq<Lexeme>): int {
    if ts == [] then 0
    else (if ts[0] == Code('}') then 1 else if ts[0] == Code('{') then -1 else 0) + Excess(ts[1..])
  }

  /** The comments and string literals, in order. */
  function SkippedTexts(ts: seq<Lexeme>): seq<string> {
    if ts == [] then []
    else (if ts[0].Skipped? then [ts[0].text] else []) + SkippedTexts(ts[1..])
  }

  lemma {:induction false} ExcessBound(ts: seq<Lexeme>, depth: nat, k: nat)
    requires k <= |ts|
    ensures Excess(ts[..k]) <= depth + Replaced(ts, depth)
  {
    if k > 0 {
      var next: nat := if ts[0] == Code('{') then depth + 1
                       else if ts[0] == Code('}') && depth > 0 then depth - 1 else depth;
      assert ts[..k][1..] == ts[1..][..k - 1];
      ExcessBound(ts[1..], next, k - 1);
    }
  }

  lemma {:induction false} ExcessReached(ts: seq<Lexeme>, depth: nat) returns (k: nat)
    requires Replaced(ts, depth) > 0
    ensures k <= |ts| && Excess(ts[..k]) == depth + Replaced(ts, depth)
  {
    if ts[0] == Code('}') && depth == 0 && Replaced(ts[1..], 0) == 0 {
      k := 1;
      assert ts[..1][1..] == [];
    } else {
      var next: nat := if ts[0] == Code('{') then depth + 1
                       else if ts[0] == Code('}') && depth > 0 then depth - 1 else depth;
      var j := ExcessReached(ts[1..], next);
      k := j + 1;
      assert ts[..k][1..] == ts[1..][..j];
    }
  }

  /** Exactly as many braces are replaced as the largest prefix excess of `}` over `{` in code. */
  lemma ReplacedIsLargestExcess(code: string)
    ensures forall k :: 0 <= k <= |Lex(code)| ==> Excess(Lex(code)[..k]) <= Replaced(Lex(code), 0)
    ensures exists k :: 0 <= k <= |Lex(code)| && Excess(Lex(code)[..k]) == Replaced(Lex(code), 0)
  {
    var ts := Lex(code);
    forall k | 0 <= k <= |ts| ensures Excess(ts[..k]) <= Replaced(ts, 0) {
      ExcessBound(ts, 0, k);
    }
    if Replaced(ts, 0) == 0 {
      assert ts[..0] == [];
    } else {
      var k := ExcessReached(ts, 0);
    }
  }

  lemma {:induction false} NoneReplaced(ts: seq<Lexeme>, depth: nat, word: char -> bool)
    requires Replaced(ts, depth) == 0
    ensures Repair(ts, depth, word) == ts
  {
    if ts != [] {
      var next: nat := if ts[0] == Code('{') then depth + 1 else if ts[0] == Code('}') then depth - 1 else depth;
      NoneReplaced(ts[1..], next, word);
      assert ts == [ts[0]] + ts[1..];
    }
  }

  lemma {:induction false} RepairedHasNone(ts: seq<Lexeme>, depth: nat, word: char -> bool)
    ensures Replaced(Repair(ts, depth, word), depth) == 0
    decreases |ts|
  {
    if ts == [] {
    } else if ts[0] == Code('}') && depth == 0 {
      var rest := AfterClose(ts[1..]);
      var repaired := Repair(rest, 0, word);
      RepairedHasNone(rest, 0, word);
      EndReplacesNothing(rest, repaired, word);
    } else {
      var next: nat := if ts[0] == Code('{') then depth + 1 else if ts[0] == Code('}') then depth - 1 else depth;
      RepairedHasNone(ts[1..], next, word);
      assert Repair(ts, depth, word) == [ts[0]] + Repair(ts[1..], next, word);
    }
  }

  lemma EndReplacesNothing(rest: seq<Lexeme>, repaired: seq<Lexeme>, word: char -> bool)
    ensures Replaced(WithEnd(rest, repaired, word), 0) == Replaced(repaired, 0)
    ensures SkippedTexts(WithEnd(rest, repaired, word)) == SkippedTexts(repaired)
  {
    hide Replaced, SkippedTexts, Head;
    var spaced := Spaced(rest, repaired, word);
    PlainInFront(' ', repaired);
    PlainInFront('d', spaced);
    PlainInFront('n', [Code('d')] + spaced);
    PlainInFront('e', [Code('n')] + ([Code('d')] + spaced));
  }

  lemma {:induction false} RepairKeepsSkipped(ts: seq<Lexeme>, depth: nat, word: char -> bool)
    ensures SkippedTexts(Repair(ts, depth, word)) == SkippedTexts(ts)
    decreases |ts|
  {
    if ts == [] {
    } else if ts[0] == Code('}') && depth == 0 {
      var rest := AfterClose(ts[1..]);
      RepairKeepsSkipped(rest, 0, word);
      EndReplacesNothing(rest, Repair(rest, 0, word), word);
    } else {
      var next: nat := if ts[0] == Code('{') then depth + 1 else if ts[0] == Code('}') then depth - 1 else depth;
      RepairKeepsSkipped(ts[1..], next, word);
      assert Repair(ts, depth, word) == [ts[0]] + Repair(ts[1..], next, word);
    }
  }

  /** The first character of what is written is the one that was read, or the `e` of an `end`. */
  lemma RepairHead(ts: seq<Lexeme>, depth: nat, word: char -> bool)
    requires Readable(ts)
    ensures var s, r := Render(ts), Render(Repair(ts, depth, word));
            if ts == [] then s == r == [] else s != [] && r != [] && (r[0] == s[0] || (s[0] == '}' && r[0] == 'e'))
  {
    if ts != [] && ts[0] == Code('}') && depth == 0 {
      RenderEnd(AfterClose(ts[1..]), Repair(AfterClose(ts[1..]), 0, word), word);
    }
  }

  lemma StartsStays(t: Lexeme, rest: string, rest': string)
    requires Starts(t, rest)
    requires if rest == [] then rest' == []
             else rest' != [] && (rest'[0] == rest[0] || (rest[0] == '}' && rest'[0] == 'e'))
    ensures Starts(t, rest')
  {
    match t
    case Code(c) =>
    case Skipped(text) => SkipTail(text, rest, rest');
  }

  lemma PlainIsReadable(c: char, ts: seq<Lexeme>)
    requires Readable(ts) && c != '/' && c != '"'
    ensures Readable([Code(c)] + ts)
  {
    assert ([Code(c)] + ts)[1..] == ts;
  }

  lemma EndIsReadable(rest: seq<Lexeme>, repaired: seq<Lexeme>, word: char -> bool)
    requires Readable(repaired)
    ensures Readable(WithEnd(rest, repaired, word))
  {
    hide Readable, Head;
    var spaced := Spaced(rest, repaired, word);
    PlainIsReadable(' ', repaired);
    PlainIsReadable('d', spaced);
    PlainIsReadable('n', [Code('d')] + spaced);
    PlainIsReadable('e', [Code('n')] + ([Code('d')] + spaced));
  }

  /** Lexing the repaired text gives the repaired lexemes: the repair opens and closes no comment or string. */
  lemma {:induction false} RepairIsReadable(ts: seq<Lexeme>, depth: nat, word: char -> bool)
    requires Readable(ts)
    ensures Readable(Repair(ts, depth, word))
    decreases |ts|
  {
    if ts == [] {
    } else if ts[0] == Code('}') && depth == 0 {
      var rest := AfterClose(ts[1..]);
      var repaired := Repair(rest, 0, word);
      RepairIsReadable(rest, 0, word);
      EndIsReadable(rest, repaired, word);
    } else {
      var next: nat := if ts[0] == Code('{') then depth + 1 else if ts[0] == Code('}') then depth - 1 else depth;
      var repaired := Repair(ts[1..], next, word);
      RepairIsReadable(ts[1..], next, word);
      RepairHead(ts[1..], next, word);
      StartsStays(ts[0], Render(ts[1..]), Render(repaired));
      assert Repair(ts, depth, word) == [ts[0]] + repaired && ([ts[0]] + repaired)[1..] == repaired;
    }
  }

  lemma {:induction false} LexFixed(code: string, word: char -> bool)
    ensures Lex(Fixed(code, word)) == Repair(Lex(code), 0, word)
  {
    LexIsReadable(code);
    RepairIsReadable(Lex(code), 0, word);
    ReadableReads(Repair(Lex(code), 0, word));
  }

  /** A second pass finds nothing to replace and changes nothing. */
  lemma FixedTwice(code: string, word: char -> bool)
    ensures Fixed(Fixed(code, word), word) == Fixed(code, word)
    ensures Replaced(Lex(Fixed(code, word)), 0) == 0
  {
    LexFixed(code, word);
    var repaired := Repair(Lex(code), 0, word);
    RepairedHasNone(Lex(code), 0, word);
    NoneReplaced(repaired, 0, word);
  }

  /** Every comment and string literal is still there, character by character, and no new one appeared. */
  lemma SkippedVerbatim(code: string, word: char -> bool)
    ensures SkippedTexts(Lex(Fixed(code, word))) == SkippedTexts(Lex(code))
  {
    LexFixed(code, word);
    RepairKeepsSkipped(Lex(code), 0, word);
  }

  // ----- What happens to the code

  /** The code characters that no repair writes or drops, in order. */
  function OtherCode(ts: seq<Lexeme>): string {
    if ts == [] then []
    else (if ts[0].Code? && ts[0].c !in "}; end" then [ts[0].c] else []) + OtherCode(ts[1..])
  }

  function CodeCount(ts: seq<Lexeme>, c: char): nat {
    if ts == [] then 0 else (if ts[0] == Code(c) then 1 else 0) + CodeCount(ts[1..], c)
  }

  lemma CodeInFront(t: Lexeme, ts: seq<Lexeme>, c: char)
    ensures CodeCount([t] + ts, c) == CodeCount(ts, c) + if t == Code(c) then 1 else 0
    ensures OtherCode([t] + ts) == (if t.Code? && t.c !in "}; end" then [t.c] else []) + OtherCode(ts)
  {
    assert ([t] + ts)[1..] == ts;
  }

  lemma {:induction false} EndCounted(rest: seq<Lexeme>, repaired: seq<Lexeme>, word: char -> bool, c: char)
    ensures var out := WithEnd(rest, repaired, word);
            && OtherCode(out) == OtherCode(repaired)
            && (c != ' ' ==> CodeCount(out, c) == CodeCount(repaired, c) + if c in "end" then 1 else 0)
  {
    hide OtherCode, CodeCount, Head;
    var spaced := Spaced(rest, repaired, word);
    CodeInFront(Code(' '), repaired, c);
    CodeInFront(Code('d'), spaced, c);
    CodeInFront(Code('n'), [Code('d')] + spaced, c);
    CodeInFront(Code('e'), [Code('n')] + ([Code('d')] + spaced), c);
  }

  /** How often `c` may have been written minus dropped, when `braces` were replaced. */
  predicate Accounted(before: nat, after: nat, braces: nat, c: char) {
    if c == '}' then after + braces == before
    else if c in "end" then after == before + braces
    else if c == ';' then after <= before <= after + braces
    else c == ' ' || after == before
  }

  /** A replaced brace, a semicolon that goes with it, and the `end` it leaves. */
  lemma CloseAccounts(ts: seq<Lexeme>, repaired: seq<Lexeme>, word: char -> bool, c: char, braces: nat)
    requires ts != [] && ts[0] == Code('}')
    requires var rest := AfterClose(ts[1..]);
             OtherCode(repaired) == OtherCode(rest) && Accounted(CodeCount(rest, c), CodeCount(repaired, c), braces, c)
    ensures var out := WithEnd(AfterClose(ts[1..]), repaired, word);
            OtherCode(out) == OtherCode(ts) && Accounted(CodeCount(ts, c), CodeCount(out, c), braces + 1, c)
  {
    hide OtherCode, CodeCount, WithEnd;
    var rest := AfterClose(ts[1..]);
    assert [ts[0]] + ts[1..] == ts;
    CodeInFront(ts[0], ts[1..], c);
    EndCounted(rest, repaired, word, c);
    if rest != ts[1..] {
      assert [ts[1]] + rest == ts[1..];
      CodeInFront(ts[1], rest, c);
    }
  }

  lemma {:induction false} RepairAccounts(ts: seq<Lexeme>, depth: nat, word: char -> bool, c: char)
    ensures OtherCode(Repair(ts, depth, word)) == OtherCode(ts)
    ensures Accounted(CodeCount(ts, c), CodeCount(Repair(ts, depth, word), c), Replaced(ts, depth), c)
    decreases |ts|
  {
    hide OtherCode, CodeCount, WithEnd, Accounted;
    if ts == [] {
      NothingCounted(depth, word, c);
    } else if ts[0] == Code('}') && depth == 0 {
      var rest := AfterClose(ts[1..]);
      RepairAccounts(rest, 0, word, c);
      assert Replaced(ts, depth) == 1 + Replaced(rest, 0);
      CloseAccounts(ts, Repair(rest, 0, word), word, c, Replaced(rest, 0));
    } else {
      var next: nat := if ts[0] == Code('{') then depth + 1 else if ts[0] == Code('}') then depth - 1 else depth;
      RepairAccounts(ts[1..], next, word, c);
      SameAccounts(ts[0], ts[1..], Repair(ts[1..], next, word), c, Replaced(ts[1..], next));
      assert [ts[0]] + ts[1..] == ts;
    }
  }

  lemma NothingCounted(depth: nat, word: char -> bool, c: char)
    ensures OtherCode(Repair([], depth, word)) == OtherCode([])
    ensures Accounted(CodeCount([], c), CodeCount(Repair([], depth, word), c), Replaced([], depth), c)
  {
  }

  lemma SameAccounts(t: Lexeme, before: seq<Lexeme>, after: seq<Lexeme>, c: char, braces: nat)
    requires OtherCode(after) == OtherCode(before) && Accounted(CodeCount(before, c), CodeCount(after, c), braces, c)
    ensures OtherCode([t] + after) == OtherCode([t] + before)
    ensures Accounted(CodeCount([t] + before, c), CodeCount([t] + after, c), braces, c)
  {
    hide OtherCode, CodeCount;
    CodeInFront(t, before, c);
    CodeInFront(t, after, c);
  }

  /** The braces open behind `ts`: a closing brace with none open is replaced and leaves none open. */
  function DepthAfter(ts: seq<Lexeme>, depth: nat): nat {
    if ts == [] then depth
    else if ts[0] == Code('{') then DepthAfter(ts[1..], depth + 1)
    else if ts[0] == Code('}') && depth > 0 then DepthAfter(ts[1..], depth - 1)
    else DepthAfter(ts[1..], depth)
  }

  /** The repair and the depth, one lexeme on. */
  lemma RepairCons(t: Lexeme, ts: seq<Lexeme>, depth: nat, word: char -> bool)
    ensures if t == Code('}') && depth == 0
            then Repair([t] + ts, 0, word) == WithEnd(AfterClose(ts), Repair(AfterClose(ts), 0, word), word)
            else Repair([t] + ts, depth, word) == [t] + Repair(ts, NextDepth(t, depth), word)
    ensures DepthAfter([t] + ts, depth) == DepthAfter(ts, NextDepth(t, depth))
  {
    assert ([t] + ts)[1..] == ts;
  }

  function NextDepth(t: Lexeme, depth: nat): nat {
    if t == Code('{') then depth + 1 else if t == Code('}') && depth > 0 then depth - 1 else depth
  }

  /** A closing brace cuts the text in two that are repaired on their own, so that what a brace
      becomes is written in its place. */
  lemma {:induction false} RepairJoin(a: seq<Lexeme>, b: seq<Lexeme>, depth: nat, word: char -> bool)
    requires b != [] && b[0] == Code('}') && !word('}')
    ensures Repair(a + b, depth, word) == Repair(a, depth, word) + Repair(b, DepthAfter(a, depth), word)
    decreases |a|
  {
    if a == [] {
      assert a + b == b && Repair(a, depth, word) == [];
    } else {
      hide Repair, DepthAfter, WithEnd, NextDepth;
      var t, ts := a[0], a[1..];
      assert [t] + ts == a && [t] + (ts + b) == a + b;
      RepairCons(t, ts, depth, word);
      RepairCons(t, ts + b, depth, word);
      if t == Code('}') && depth == 0 {
        var rest := AfterClose(ts);
        assert AfterClose(ts + b) == rest + b;
        SemicolonKeepsDepth(ts);
        RepairJoin(rest, b, 0, word);
        EndJoin(rest, b, Repair(rest, 0, word), Repair(b, DepthAfter(rest, 0), word), word);
      } else {
        var next := NextDepth(t, depth);
        RepairJoin(ts, b, next, word);
        var x, y := Repair(ts, next, word), Repair(b, DepthAfter(ts, next), word);
        assert [t] + (x + y) == ([t] + x) + y;
      }
    }
  }

  lemma SemicolonKeepsDepth(ts: seq<Lexeme>)
    ensures DepthAfter(AfterClose(ts), 0) == DepthAfter(ts, 0)
  {
  }

  lemma EndJoin(rest: seq<Lexeme>, b: seq<Lexeme>, x: seq<Lexeme>, y: seq<Lexeme>, word: char -> bool)
    requires b != [] && b[0] == Code('}') && !word('}')
    ensures WithEnd(rest + b, x + y, word) == WithEnd(rest, x, word) + y
  {
    assert rest == [] ==> rest + b == b;
    assert Spaced(rest + b, x + y, word) == Spaced(rest, x, word) + y;
  }

  /** Each replaced brace is gone, with at most one semicolon, for one `e`, one `n` and one `d`;
      only blanks may come on top, and all other code stays as it is, in order. */
  lemma {:induction false} CodeAccountedFor(code: string, word: char -> bool)
    ensures var before, after := Lex(code), Lex(Fixed(code, word));
            && OtherCode(after) == OtherCode(before)
            && forall c :: Accounted(CodeCount(before, c), CodeCount(after, c), Replaced(before, 0), c)
  {
    LexFixed(code, word);
    forall c
      ensures Accounted(CodeCount(Lex(code), c), CodeCount(Lex(Fixed(code, word)), c), Replaced(Lex(code), 0), c)
    {
      RepairAccounts(Lex(code), 0, word, c);
    }
    RepairAccounts(Lex(code), 0, word, ' ');
  }

  /** Only code whose closing braces outnumber the opening ones somewhere is changed. */
  lemma UnchangedIffNeverNegative(code: string, word: char -> bool)
    ensures Fixed(code, word) == code <==> forall k :: 0 <= k <= |Lex(code)| ==> Excess(Lex(code)[..k]) <= 0
  {
    ReplacedIsLargestExcess(code);
    RenderLex(code);
    if Replaced(Lex(code), 0) == 0 {
      NoneReplaced(Lex(code), 0, word);
    } else if Fixed(code, word) == code {
      LexFixed(code, word);
      RepairedHasNone(Lex(code), 0, word);
      assert false;
    }
  }

  /** An inserted `end` runs into a word character exactly when the next brace, too, becomes an `end`. */
  lemma {:induction false} EndIsGluedIff(ts: seq<Lexeme>, word: char -> bool)
    requires Readable(ts) && ts != [] && ts[0] == Code('}')
    requires word('e') && !word(' ') && !word('}')
    ensures var out := Render(Repair(ts, 0, word));
            && |out| >= 3 && out[..3] == "end"
            && ((|out| > 3 && word(out[3])) <==> (AfterClose(ts[1..]) != [] && AfterClose(ts[1..])[0] == Code('}')))
  {
    var rest := AfterClose(ts[1..]);
    var repaired := Repair(rest, 0, word);
    RenderEnd(rest, repaired, word);
    RepairHead(rest, 0, word);
    assert Readable(rest);
    assert rest != [] ==> Head(rest) == [Render(rest)[0]];
    if rest != [] && rest[0] == Code('}') {
      RenderEnd(AfterClose(rest[1..]), Repair(AfterClose(rest[1..]), 0, word), word);
    }
  }

  /** Such a text: the second brace, too, closes nothing, and the two `end`s run together. */
  lemma TwoEndsAreGlued(word: char -> bool)
    requires !word('}')
    ensures Fixed("};}", word) == "endend"
  {
    var tail := [Code('}')];
    assert "};}"[1..] == ";}" && ";}"[1..] == "}" && "}"[1..] == "";
    assert Lex("}") == tail && Lex(";}") == [Code(';')] + tail;
    assert Lex("};}") == [Code('}')] + ([Code(';')] + tail);
    assert AfterClose(([Code('}')] + ([Code(';')] + tail))[1..]) == tail;
    var once := Repair(tail, 0, word);
    assert AfterClose(tail[1..]) == [];
    assert Repair([], 0, word) == [];
    RenderEnd([], [], word);
    RenderEnd(tail, once, word);
  }
}
