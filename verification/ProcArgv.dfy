/** The argument vectors of the experiment driver (bwi-client_server/main.c): an argument text is cut into tokens in
    place, and the numbers that are only known later are printed over the placeholders that were put into it.

    A process's text lives in one buffer of characters. A pointer into it is its offset, and a NULL pointer is `None`.
 */
module ProcArgv {
  import opened Common
  import opened Stdio
  import opened TimeText

  predicate IsDelimiter(c: char) {
    c == ' ' || c == '\t'
  }

  // ---------- tokens ----------

  /** The number of characters before the first delimiter. */
  function WordEnd(s: string): (n: nat)
    ensures n <= |s| && (n < |s| ==> IsDelimiter(s[n]))
    ensures forall i :: 0 <= i < n ==> !IsDelimiter(s[i])
  {
    if s == [] || IsDelimiter(s[0]) then 0 else 1 + WordEnd(s[1..])
  }

  function Tokens(s: string): seq<string>
    decreases |s|
  {
    if s == [] then []
    else if IsDelimiter(s[0]) then Tokens(s[1..])
    else [s[..WordEnd(s)]] + (if WordEnd(s) == |s| then [] else Tokens(s[WordEnd(s) + 1..]))
  }

  /** A text without delimiters is one token. */
  predicate IsWord(s: string) {
    s != [] && forall i :: 0 <= i < |s| ==> !IsDelimiter(s[i])
  }

  lemma TokensOfWord(s: string)
    requires IsWord(s)
    ensures Tokens(s) == [s]
  {
    assert s[..|s|] == s;
  }

  lemma SplitInFirst<T>(a: seq<T>, b: seq<T>, c: seq<T>, n: nat)
    requires n <= |a|
    ensures (a + b + c)[..n] == a[..n] && (a + b + c)[n..] == a[n..] + b + c
  {
  }

  /** Tokens do not reach across a delimiter. */
  lemma {:induction false} TokensOfConcat(a: string, d: char, b: string)
    requires IsDelimiter(d)
    ensures Tokens(a + [d] + b) == Tokens(a) + Tokens(b)
    decreases |a|
  {
    var s := a + [d] + b;
    if a == [] {
      assert s[1..] == b;
    } else if IsDelimiter(a[0]) {
      assert s[1..] == a[1..] + [d] + b;
      TokensOfConcat(a[1..], d, b);
    } else {
      var n := WordEnd(a);
      WordEndIs(s, n);
      if n == |a| {
        assert s[..n] == a && s[n + 1..] == b;
        assert a[..n] == a;
      } else {
        SplitInFirst(a, [d], b, n);
        SplitInFirst(a, [d], b, n + 1);
        TokensOfConcat(a[n + 1..], d, b);
        Regroup([a[..n]], Tokens(a[n + 1..]), Tokens(b));
      }
    }
  }

  lemma {:induction false} WordEndIs(s: string, n: nat)
    requires n <= |s| && forall i :: 0 <= i < n ==> !IsDelimiter(s[i])
    requires n < |s| ==> IsDelimiter(s[n])
    ensures WordEnd(s) == n
  {
    if n > 0 {
      WordEndIs(s[1..], n - 1);
    }
  }

  // ---------- tokenizing in place ----------

  /** The C string at offset `o` is `t`. */
  predicate StringAt(buffer: seq<char>, o: nat, t: string) {
    && o + |t| < |buffer| && buffer[o..o + |t|] == t && buffer[o + |t|] == NUL
    && forall i :: 0 <= i < |t| ==> t[i] != NUL
  }

  /** The first pointers lead to the strings, which lie one after the other without overlap. */
  ghost predicate Strings(buffer: seq<char>, argv: seq<Option<nat>>, strings: seq<string>) {
    && |strings| <= |argv|
    && (forall k :: 0 <= k < |strings| ==> argv[k].Some? && StringAt(buffer, argv[k].value, strings[k]))
    && (forall j, k :: 0 <= j < k < |strings| ==> argv[j].value + |strings[j]| < argv[k].value)
  }

  /** A whole argument vector, with the NULL pointer at its end. */
  ghost predicate Holds(buffer: seq<char>, argv: seq<Option<nat>>, strings: seq<string>) {
    Strings(buffer, argv, strings) && |argv| == |strings| + 1 && argv[|strings|] == None
  }

  lemma StringAtFrame(b: seq<char>, c: seq<char>, o: nat, t: string)
    requires StringAt(b, o, t) && |b| == |c| && forall i :: o <= i <= o + |t| ==> c[i] == b[i]
    ensures StringAt(c, o, t)
  {
    assert c[o..o + |t|] == b[o..o + |t|];
  }

  /** Strings that end before `limit` are not affected by changes from there on. */
  lemma StringsFrame(b: seq<char>, c: seq<char>, argv: seq<Option<nat>>, strings: seq<string>, limit: nat)
    requires Strings(b, argv, strings) && |b| == |c|
    requires forall i :: 0 <= i < |b| && i < limit ==> c[i] == b[i]
    requires forall k :: 0 <= k < |strings| ==> argv[k].value + |strings[k]| < limit
    ensures Strings(c, argv, strings)
  {
    forall k | 0 <= k < |strings|
      ensures StringAt(c, argv[k].value, strings[k])
    {
      StringAtFrame(b, c, argv[k].value, strings[k]);
    }
  }

  /** The text that is left from `from` on, and its terminator. */
  predicate Left(buffer: seq<char>, from: nat, end: nat) {
    from <= end < |buffer| && buffer[end] == NUL && forall i :: from <= i < end ==> buffer[i] != NUL
  }

  /** Where the delimiters at `from` end. */
  method SkipDelimiters(buffer: array<char>, from: nat, ghost end: nat) returns (i: nat)
    requires Left(buffer[..], from, end)
    ensures from <= i <= end && (i < end ==> !IsDelimiter(buffer[i]))
    ensures Tokens(buffer[from..end]) == Tokens(buffer[i..end])
  {
    i := from;
    while buffer[i] != NUL && IsDelimiter(buffer[i])
      invariant from <= i <= end
      invariant Tokens(buffer[from..end]) == Tokens(buffer[i..end])
      decreases end - i
    {
      assert buffer[i..end][1..] == buffer[i + 1..end];
      i := i + 1;
    }
  }

  /** Where the word at `from` ends. */
  method SkipWord(buffer: array<char>, from: nat, ghost end: nat) returns (i: nat)
    requires Left(buffer[..], from, end)
    ensures i == from + WordEnd(buffer[from..end])
  {
    i := from;
    while buffer[i] != NUL && !IsDelimiter(buffer[i])
      invariant from <= i <= end
      invariant forall k :: from <= k < i ==> !IsDelimiter(buffer[k])
      decreases end - i
    {
      i := i + 1;
    }
    WordEndIs(buffer[from..end], i - from);
  }

  /** A text that starts with a word, which is its first token. */
  lemma FirstToken(s: string, token: string, rest: string)
    requires s != [] && !IsDelimiter(s[0])
    requires token == s[..WordEnd(s)] && rest == if WordEnd(s) == |s| then [] else s[WordEnd(s) + 1..]
    ensures token != [] && Tokens(s) == [token] + Tokens(rest)
  {
    if WordEnd(s) == |s| {
      assert Tokens(rest) == [];
    }
  }

  /** The buffer once the token from `i` to `e` is terminated, and the text after it. */
  function Terminate(buffer: seq<char>, e: nat): (now: seq<char>)
    requires e < |buffer|
    ensures |now| == |buffer|
  {
    buffer[e := NUL]
  }

  lemma TokenIsString(buffer: seq<char>, i: nat, e: nat, end: nat)
    requires Left(buffer, i, end) && i <= e <= end
    ensures StringAt(Terminate(buffer, e), i, buffer[i..e])
  {
    assert Terminate(buffer, e)[i..e] == buffer[i..e];
  }

  lemma TextAfterToken(buffer: seq<char>, i: nat, e: nat, end: nat)
    requires i <= e <= end < |buffer|
    ensures buffer[i..e] == buffer[i..end][..e - i]
    ensures Terminate(buffer, e)[Min(end, e + 1)..end] == if e == end then [] else buffer[i..end][e - i + 1..]
  {
  }

  /** A buffer before and after the token from `i` to `e` is terminated. */
  lemma FirstTokenOf(buffer: seq<char>, i: nat, e: nat, end: nat)
    requires Left(buffer, i, end) && i < end && !IsDelimiter(buffer[i]) && e == i + WordEnd(buffer[i..end])
    ensures i < e && Tokens(buffer[i..end]) == [buffer[i..e]] + Tokens(Terminate(buffer, e)[Min(end, e + 1)..end])
  {
    TextAfterToken(buffer, i, e, end);
    assert WordEnd(buffer[i..end]) >= 1;
    FirstToken(buffer[i..end], buffer[i..e], Terminate(buffer, e)[Min(end, e + 1)..end]);
  }

  /** One call of strtok takes the first token of what is left, terminates it, and leaves the rest. */
  ghost predicate Taken(before: seq<char>, after: seq<char>, from: nat, end: nat, start: Option<nat>, next: nat,
                        token: string)
  {
    && |before| == |after| && from <= next && Left(before, from, end) && Left(after, next, end)
    && (forall i :: 0 <= i < |before| && !(from <= i < next) ==> after[i] == before[i])
    && (if start == None then Tokens(before[from..end]) == []
        else
          && from <= start.value < next <= end && next <= start.value + |token| + 1
          && start.value + |token| <= end && (start.value + |token| < next || next == end)
          && Tokens(before[from..end]) == [token] + Tokens(after[next..end])
          && StringAt(after, start.value, token))
  }

  /** strtok, with the position it remembers between calls as `from` and `next`. */
  method NextToken(buffer: array<char>, from: nat, ghost end: nat)
      returns (start: Option<nat>, next: nat, ghost token: string)
    requires Left(buffer[..], from, end)
    modifies buffer
    ensures Taken(old(buffer[..]), buffer[..], from, end, start, next, token)
  {
    var i := SkipDelimiters(buffer, from, end);
    if buffer[i] == NUL {
      assert buffer[i..end] == [];
      assert buffer[from..end] == buffer[..][from..end];
      return None, i, [];
    }
    start := Some(i);
    ghost var was := buffer[..];
    assert buffer[from..end] == was[from..end] && buffer[i..end] == was[i..end];
    next, token := EndToken(buffer, i, end);
    assert buffer[next..end] == buffer[..][next..end];
  }

  /** The token at `i` has been terminated, and `next` is where the text goes on. */
  ghost predicate Ended(before: seq<char>, after: seq<char>, i: nat, end: nat, next: nat, token: string) {
    && |before| == |after| && i < next == Min(end, i + |token| + 1) && Left(after, next, end)
    && (forall k :: 0 <= k < |before| && !(i <= k < next) ==> after[k] == before[k])
    && Tokens(before[i..end]) == [token] + Tokens(after[next..end])
    && StringAt(after, i, token)
  }

  lemma Ends(buffer: seq<char>, i: nat, e: nat, end: nat)
    requires Left(buffer, i, end) && i < end && !IsDelimiter(buffer[i]) && e == i + WordEnd(buffer[i..end])
    ensures Ended(buffer, Terminate(buffer, e), i, end, Min(end, e + 1), buffer[i..e])
  {
    FirstTokenOf(buffer, i, e, end);
    TokenIsString(buffer, i, e, end);
  }

  /** The rest of strtok, at the start of a token: terminate it. */
  method EndToken(buffer: array<char>, i: nat, ghost end: nat) returns (next: nat, ghost token: string)
    requires Left(buffer[..], i, end) && i < end && !IsDelimiter(buffer[i])
    modifies buffer
    ensures Ended(old(buffer[..]), buffer[..], i, end, next, token)
  {
    ghost var was := buffer[..];
    assert buffer[i..end] == was[i..end];
    next := SkipWord(buffer, i, end);
    ghost var e := next;
    token := was[i..e];
    Ends(was, i, e, end);
    if buffer[next] != NUL {
      buffer[next] := NUL;
      next := next + 1;
    }
    assert next == Min(end, e + 1) && buffer[..] == Terminate(was, e);
  }

  /** The pass that counts the tokens, on a copy of the text. */
  method CountTokens(args: string) returns (argc: nat)
    requires forall i :: 0 <= i < |args| ==> args[i] != NUL
    ensures argc == |Tokens(args)|
  {
    var copy := Terminated(args);
    argc := 0;
    var tok, next;
    ghost var token;
    assert copy[..][0..|args|] == args;
    tok, next, token := NextToken(copy, 0, |args|);
    while tok != None
      invariant Left(copy[..], next, |args|) && fresh(copy)
      invariant |Tokens(args)| == argc + if tok == None then 0 else 1 + |Tokens(copy[..][next..|args|])|
      decreases |args| - next, tok != None
    {
      argc := argc + 1;
      tok, next, token := NextToken(copy, next, |args|);
    }
  }

  /** A buffer with the text and its terminator. */
  method Terminated(args: string) returns (buffer: array<char>)
    ensures fresh(buffer) && buffer.Length == |args| + 1
    ensures buffer[..|args|] == args && buffer[|args|] == NUL
  {
    buffer := new char[|args| + 1](_ => NUL);
    forall i | 0 <= i < |args| {
      buffer[i] := args[i];
    }
  }

  /** Where the storing pass is: `done` are the tokens that have been stored, and `tok` is the one to be stored next. */
  ghost predicate Filling(buffer: seq<char>, argv: seq<Option<nat>>, all: seq<string>, done: seq<string>,
                          tok: Option<nat>, next: nat, token: string, end: nat)
  {
    && Left(buffer, next, end) && Strings(buffer, argv, done) && |argv| == |all| + 1
    && all == done + (if tok == None then [] else [token] + Tokens(buffer[next..end]))
    && (tok != None ==>
          && StringAt(buffer, tok.value, token)
          && tok.value + |token| <= end && (tok.value + |token| < next || next == end)
          && forall j :: 0 <= j < |done| ==> argv[j].value + |done[j]| < tok.value)
  }

  lemma FillingStarts(b: seq<char>, c: seq<char>, argv: seq<Option<nat>>, tok: Option<nat>, next: nat, token: string,
                      end: nat)
    requires Taken(b, c, 0, end, tok, next, token) && |argv| == |Tokens(b[0..end])| + 1
    ensures Filling(c, argv, Tokens(b[0..end]), [], tok, next, token, end)
  {
  }

  lemma Stored(b: seq<char>, c: seq<char>, argv: seq<Option<nat>>, all: seq<string>, done: seq<string>,
               tok: Option<nat>, next: nat, token: string, end: nat,
               tok': Option<nat>, next': nat, token': string)
    requires tok != None && Filling(b, argv, all, done, tok, next, token, end)
    requires Taken(b, c, next, end, tok', next', token')
    ensures Filling(c, argv[|done| := tok], all, done + [token], tok', next', token', end)
  {
    var vector, now := argv[|done| := tok], done + [token];
    assert Strings(b, vector, now);
    StringsFrame(b, c, vector, now, tok.value + |token| + 1);
    assert tok' != None ==> next < end;
  }

  /** The pass that stores the tokens. The vector has room for as many as were counted, and for NULL. */
  method FillArgv(buffer: array<char>, argv: array<Option<nat>>, ghost end: nat)
    requires Left(buffer[..], 0, end) && argv.Length == |Tokens(buffer[..end])| + 1
    modifies buffer, argv
    ensures Holds(buffer[..], argv[..], Tokens(old(buffer[..end])))
  {
    ghost var all, done: seq<string> := Tokens(buffer[..end]), [];
    ghost var was := buffer[..];
    var i := 0;
    var tok, next;
    ghost var token;
    assert was[0..end] == buffer[..end];
    tok, next, token := NextToken(buffer, 0, end);
    FillingStarts(was, buffer[..], argv[..], tok, next, token, end);
    while tok != None
      invariant i == |done| && Filling(buffer[..], argv[..], all, done, tok, next, token, end)
      decreases end - next, tok != None
    {
      ghost var before, pointers := buffer[..], argv[..];
      ghost var tok', next', token' := tok, next, token;
      argv[i] := tok;
      i := i + 1;
      tok, next, token := NextToken(buffer, next, end);
      assert argv[..] == pointers[|done| := tok'];
      Stored(before, buffer[..], pointers, all, done, tok', next', token', end, tok, next, token);
      done := done + [token'];
    }
    ghost var pointers := argv[..];
    FillingEnds(buffer[..], pointers, all, done, next, token, end);
    argv[i] := None;
    assert argv[..] == pointers[i := None];
  }

  lemma FillingEnds(buffer: seq<char>, argv: seq<Option<nat>>, all: seq<string>, done: seq<string>, next: nat,
                    token: string, end: nat)
    requires Filling(buffer, argv, all, done, None, next, token, end)
    ensures |done| < |argv| && Holds(buffer, argv[|done| := None], all)
  {
    assert all == done;
  }

  // ---------- filling in what is only known later ----------

  /** The token starts with a dash and the letter. */
  predicate Names(token: string, letter: char) {
    |token| >= 2 && token[0] == '-' && token[1] == letter
  }

  /** The first token that does, or the number of tokens. */
  function FirstOption(tokens: seq<string>, letter: char): (k: nat)
    ensures k <= |tokens| && (k < |tokens| ==> Names(tokens[k], letter))
    ensures forall i :: 0 <= i < k ==> !Names(tokens[i], letter)
  {
    if tokens == [] || Names(tokens[0], letter) then 0 else 1 + FirstOption(tokens[1..], letter)
  }

  lemma {:induction false} FirstOptionIs(tokens: seq<string>, letter: char, k: nat)
    requires k <= |tokens| && (k < |tokens| ==> Names(tokens[k], letter))
    requires forall i :: 0 <= i < k ==> !Names(tokens[i], letter)
    ensures FirstOption(tokens, letter) == k
  {
    if k > 0 {
      FirstOptionIs(tokens[1..], letter, k - 1);
    }
  }

  /** What snprintf leaves of `text` when it is given the length of the string it overwrites as the room there is: one
      character goes to the terminator. */
  function Cut(text: string, length: nat): (cut: string)
    ensures |cut| <= length && (length > 0 ==> |cut| < length)
  {
    if length == 0 then [] else text[..Min(|text|, length - 1)]
  }

  /** The argument of the first option with the letter: the token that holds it, and the number of characters in that
      token before it. */
  datatype Place = Nowhere | Within(index: nat, before: nat)

  function ArgumentOf(tokens: seq<string>, letter: char): (p: Place)
    ensures p.Within? ==> p.index < |tokens| && p.before <= |tokens[p.index]|
  {
    var k := FirstOption(tokens, letter);
    if k == |tokens| then Nowhere
    else if |tokens[k]| > 2 then Within(k, 2)
    else if k + 1 < |tokens| then Within(k + 1, 0)
    else Nowhere
  }

  /** The end of a token overwritten. */
  function Overwrite(tokens: seq<string>, index: nat, before: nat, text: string): (after: seq<string>)
    requires index < |tokens| && before <= |tokens[index]|
    ensures |after| == |tokens|
  {
    tokens[index := tokens[index][..before] + Cut(text, |tokens[index]| - before)]
  }

  /** The tokens once the argument of the first option with the letter has been overwritten. */
  function Adjusted(tokens: seq<string>, letter: char, text: string): (after: seq<string>)
    ensures |after| == |tokens|
  {
    match ArgumentOf(tokens, letter)
    case Nowhere => tokens
    case Within(index, before) => Overwrite(tokens, index, before, text)
  }

  lemma CharAt(b: seq<char>, o: nat, t: string, j: nat)
    requires StringAt(b, o, t) && j <= |t|
    ensures b[o + j] == if j < |t| then t[j] else NUL
  {
    assert j < |t| ==> b[o..o + |t|][j] == t[j];
  }

  /** The test made of each token: two characters, the second of which is only looked at after a dash. */
  method IsOption(buffer: array<char>, o: nat, letter: char, ghost token: string) returns (yes: bool)
    requires StringAt(buffer[..], o, token) && letter != NUL
    ensures yes == Names(token, letter)
  {
    CharAt(buffer[..], o, token, 0);
    yes := false;
    if buffer[o] == '-' {
      CharAt(buffer[..], o, token, 1);
      yes := buffer[o + 1] == letter;
    }
  }

  /** find_argv_to_adjust: the argument within the token, or else the next token. */
  method FindArgvToAdjust(buffer: array<char>, argv: array<Option<nat>>, letter: char, ghost tokens: seq<string>)
      returns (at: Option<nat>)
    requires Holds(buffer[..], argv[..], tokens) && letter != NUL
    ensures match ArgumentOf(tokens, letter)
            case Nowhere => at == None
            case Within(index, before) => argv[index].Some? && at == Some(argv[index].value + before)
  {
    var i := 0;
    while argv[i] != None
      invariant 0 <= i <= |tokens| && forall j :: 0 <= j < i ==> !Names(tokens[j], letter)
      decreases |tokens| - i
    {
      var o := argv[i].value;
      var found := IsOption(buffer, o, letter, tokens[i]);
      if found {
        FirstOptionIs(tokens, letter, i);
        CharAt(buffer[..], o, tokens[i], 2);
        if buffer[o + 2] == NUL {
          return argv[i + 1];
        }
        return Some(o + 2);
      }
      i := i + 1;
    }
    FirstOptionIs(tokens, letter, i);
    return None;
  }

  /** strlen. */
  method Strlen(buffer: array<char>, at: nat, ghost t: string) returns (length: nat)
    requires StringAt(buffer[..], at, t)
    ensures length == |t|
  {
    length := 0;
    CharAt(buffer[..], at, t, 0);
    while buffer[at + length] != NUL
      invariant length <= |t| && (buffer[at + length] == NUL <==> length == |t|)
      decreases |t| - length
    {
      CharAt(buffer[..], at, t, length + 1);
      length := length + 1;
    }
  }

  /** A buffer after snprintf has written a text that is already formatted. */
  function Printed(b: seq<char>, at: nat, size: nat, text: string): (c: seq<char>)
    requires at + size <= |b|
    ensures |c| == |b|
  {
    if size == 0 then b
    else
      var n := Min(|text|, size - 1);
      b[..at] + text[..n] + [NUL] + b[at + n + 1..]
  }

  method Snprintf(buffer: array<char>, at: nat, size: nat, text: string)
    requires at + size <= buffer.Length
    modifies buffer
    ensures buffer[..] == Printed(old(buffer[..]), at, size, text)
  {
    if size == 0 {
      return;
    }
    var n := Min(|text|, size - 1);
    forall i | 0 <= i < n {
      buffer[at + i] := text[i];
    }
    buffer[at + n] := NUL;
  }

  lemma PrintedString(b: seq<char>, o: nat, t: string, keep: nat, text: string)
    requires StringAt(b, o, t) && keep <= |t| && forall i :: 0 <= i < |text| ==> text[i] != NUL
    ensures StringAt(Printed(b, o + keep, |t| - keep, text), o, t[..keep] + Cut(text, |t| - keep))
  {
    var c, cut := Printed(b, o + keep, |t| - keep, text), Cut(text, |t| - keep);
    if keep == |t| {
      assert t[..keep] + cut == t;
    } else {
      assert b[o..o + keep] == b[o..o + |t|][..keep];
      assert c[o..o + keep + |cut|] == b[o..o + keep] + cut;
    }
  }

  /** Outside `from` to `to` the two buffers are the same. */
  predicate SameOutside(b: seq<char>, c: seq<char>, from: nat, to: nat) {
    |b| == |c| && forall i :: 0 <= i < |b| && !(from <= i < to) ==> c[i] == b[i]
  }

  lemma PrintedSame(b: seq<char>, at: nat, size: nat, text: string, from: nat)
    requires from <= at && at + size <= |b|
    ensures SameOutside(b, Printed(b, at, size, text), from, at + size)
  {
  }

  /** A string replaced by one that is no longer, within its place, leaves the other strings alone. */
  lemma ReplacedString(b: seq<char>, c: seq<char>, argv: seq<Option<nat>>, strings: seq<string>, t: nat, s: string)
    requires Strings(b, argv, strings) && t < |strings| && |s| <= |strings[t]|
    requires SameOutside(b, c, argv[t].value, argv[t].value + |strings[t]|)
    requires StringAt(c, argv[t].value, s)
    ensures Strings(c, argv, strings[t := s])
  {
    forall k | 0 <= k < |strings| && k != t
      ensures StringAt(c, argv[k].value, strings[k])
    {
      StringAtFrame(b, c, argv[k].value, strings[k]);
    }
  }

  /** Print over the end of a token. */
  method OverwriteArgument(buffer: array<char>, argv: array<Option<nat>>, at: nat, text: string,
                           ghost tokens: seq<string>, ghost index: nat, ghost before: nat)
    requires Holds(buffer[..], argv[..], tokens) && index < |tokens| && before <= |tokens[index]|
    requires at == argv[index].value + before
    requires forall i :: 0 <= i < |text| ==> text[i] != NUL
    modifies buffer
    ensures Holds(buffer[..], argv[..], Overwrite(tokens, index, before, text))
  {
    ghost var was, o, t := buffer[..], argv[index].value, tokens[index];
    ArgumentIsString(was, o, t, before) by {
      assert StringAt(was, o, t);
    }
    var length := Strlen(buffer, at, t[before..]);
    Snprintf(buffer, at, length, text);
    PrintedOver(was, buffer[..], o, t, before, text);
    Replaced(was, buffer[..], argv[..], tokens, index, t[..before] + Cut(text, length));
  }

  /** The string at `o` before and after printing over its end. */
  lemma PrintedOver(b: seq<char>, c: seq<char>, o: nat, t: string, before: nat, text: string)
    requires StringAt(b, o, t) && before <= |t| && forall i :: 0 <= i < |text| ==> text[i] != NUL
    requires c == Printed(b, o + before, |t| - before, text)
    ensures SameOutside(b, c, o, o + |t|) && StringAt(c, o, t[..before] + Cut(text, |t| - before))
  {
    PrintedString(b, o, t, before, text);
    PrintedSame(b, o + before, |t| - before, text, o);
  }

  lemma Replaced(b: seq<char>, c: seq<char>, argv: seq<Option<nat>>, tokens: seq<string>, index: nat, s: string)
    requires Holds(b, argv, tokens) && index < |tokens| && |s| <= |tokens[index]|
    requires SameOutside(b, c, argv[index].value, argv[index].value + |tokens[index]|)
    requires StringAt(c, argv[index].value, s)
    ensures Holds(c, argv, tokens[index := s])
  {
    ReplacedString(b, c, argv, tokens, index, s);
  }

  /** Print over the argument of an option, if there is such an option and it has an argument. */
  method AdjustArgument(buffer: array<char>, argv: array<Option<nat>>, letter: char, text: string,
                        ghost tokens: seq<string>)
    requires Holds(buffer[..], argv[..], tokens) && letter != NUL
    requires forall i :: 0 <= i < |text| ==> text[i] != NUL
    modifies buffer
    ensures Holds(buffer[..], argv[..], Adjusted(tokens, letter, text))
  {
    var at := FindArgvToAdjust(buffer, argv, letter, tokens);
    if at != None {
      ghost var place := ArgumentOf(tokens, letter);
      OverwriteArgument(buffer, argv, at.value, text, tokens, place.index, place.before);
    }
  }

  lemma ArgumentIsString(b: seq<char>, o: nat, t: string, keep: nat)
    requires StringAt(b, o, t) && keep <= |t|
    ensures StringAt(b, o + keep, t[keep..])
  {
    assert b[o + keep..o + |t|] == b[o..o + |t|][keep..];
  }

  // ---------- the argument vectors of the driver ----------

  const INT_MAX: nat := 0x7FFF_FFFF
  const ULONG_MAX: nat := 0xFFFF_FFFF_FFFF_FFFF

  /** An option of a process: whether it is appended to the text of the process, with the greatest number of its type
      as a placeholder for its argument, and the number to be printed over the placeholder, if there is one. */
  datatype Opt = Opt(appended: bool, letter: char, top: nat, value: Option<nat>)

  function OptionText(o: Opt): string {
    if o.appended then " -" + [o.letter] + " " + Decimal(o.top) else ""
  }

  function OptionsText(os: seq<Opt>): string {
    if os == [] then "" else OptionText(os[0]) + OptionsText(os[1..])
  }

  /** The argument text made for a line of the configuration; `rest` is the line after the name of the program. */
  function ArgsText(program: string, rest: string, os: seq<Opt>): string {
    "./" + program + " " + rest + OptionsText(os)
  }

  /** The options of a client: the process ID of its server, the duration, and when to start and stop tracing, which
      are only appended together. */
  function ClientOptions(v: Option<nat>, x: nat, r: Option<nat>, l: Option<nat>): seq<Opt> {
    var tracing := r != None && l != None;
    [Opt(v != None, 'v', INT_MAX, v), Opt(true, 'x', ULONG_MAX, Some(x)),
     Opt(tracing, 'r', INT_MAX, r), Opt(tracing, 'l', INT_MAX, l)]
  }

  function AdjustedBy(tokens: seq<string>, letter: char, value: Option<nat>): (after: seq<string>)
    ensures |after| == |tokens|
  {
    if value == None then tokens else Adjusted(tokens, letter, Decimal(value.value))
  }

  /** The tokens of a process once everything that is known is filled in. */
  function AdjustedAll(tokens: seq<string>, v: Option<nat>, x: Option<nat>, r: Option<nat>, l: Option<nat>): seq<string> {
    AdjustedBy(AdjustedBy(AdjustedBy(AdjustedBy(tokens, 'v', v), 'x', x), 'r', r), 'l', l)
  }

  method AdjustBy(buffer: array<char>, argv: array<Option<nat>>, letter: char, value: Option<nat>,
                  ghost tokens: seq<string>)
    requires Holds(buffer[..], argv[..], tokens) && letter != NUL
    modifies buffer
    ensures Holds(buffer[..], argv[..], AdjustedBy(tokens, letter, value))
  {
    if value != None {
      AdjustArgument(buffer, argv, letter, Decimal(value.value), tokens);
    }
  }

  /** procs_make_argv on one process: count, store, and fill in. The process ID of a subserver is filled in later, by
      procs_create. */
  method MakeArgv(args: string, v: Option<nat>, x: Option<nat>, r: Option<nat>, l: Option<nat>)
      returns (buffer: array<char>, argv: array<Option<nat>>)
    requires forall i :: 0 <= i < |args| ==> args[i] != NUL
    ensures Holds(buffer[..], argv[..], AdjustedAll(Tokens(args), v, x, r, l))
  {
    var argc := CountTokens(args);
    buffer := Terminated(args);
    argv := new Option<nat>[argc + 1](_ => None);
    FillArgv(buffer, argv, |args|);
    ghost var tokens := Tokens(args);
    AdjustBy(buffer, argv, 'v', v, tokens);
    tokens := AdjustedBy(tokens, 'v', v);
    AdjustBy(buffer, argv, 'x', x, tokens);
    tokens := AdjustedBy(tokens, 'x', x);
    AdjustBy(buffer, argv, 'r', r, tokens);
    tokens := AdjustedBy(tokens, 'r', r);
    AdjustBy(buffer, argv, 'l', l, tokens);
  }

  // ---------- numbers ----------

  /** What arrives of a number that is printed over the greatest one of its type. */
  function Shown(value: nat, top: nat): string {
    Cut(Decimal(value), |Decimal(top)|)
  }

  /** The number has fewer digits than what it is printed over. */
  predicate Fits(value: nat, top: nat) {
    value < Pow10(|Decimal(top)| - 1)
  }

  /** The whole number arrives if and only if it does. */
  lemma ShownIsWhole(value: nat, top: nat)
    requires top >= 10
    ensures Shown(value, top) == Decimal(value) <==> Fits(value, top)
  {
    DecimalLength(top, 1);
    assert Pow10(1) == 10;
    DecimalLength(value, |Decimal(top)| - 1);
  }

  lemma Pow10Plus3(w: nat)
    ensures Pow10(w + 3) == 1000 * Pow10(w)
  {
    assert Pow10(w + 2) == 100 * Pow10(w);
  }

  /** So nine digits of an int and nineteen of an unsigned long arrive. */
  lemma FitsMeans(value: nat)
    ensures Fits(value, INT_MAX) <==> value < 1_000_000_000
    ensures Fits(value, ULONG_MAX) <==> value < 10_000_000_000_000_000_000
  {
    Pow10Plus3(0);
    Pow10Plus3(3);
    Pow10Plus3(6);
    TenDigits();
    TwentyDigits();
  }

  lemma TenDigits()
    requires Pow10(9) == 1_000_000_000
    ensures |Decimal(INT_MAX)| == 10
  {
    DecimalLength(INT_MAX, 9);
    DecimalLength(INT_MAX, 10);
  }

  lemma TwentyDigits()
    requires Pow10(9) == 1_000_000_000
    ensures |Decimal(ULONG_MAX)| == 20 && Pow10(19) == 10_000_000_000_000_000_000
  {
    Pow10Plus3(9);
    Pow10Plus3(12);
    Pow10Plus3(15);
    DecimalLength(ULONG_MAX, 19);
    DecimalLength(ULONG_MAX, 20);
  }

  // ---------- what arrives ----------

  function Slot(o: Opt, argument: string): seq<string> {
    if o.appended then [['-', o.letter], argument] else []
  }

  /** The tokens of an appended option before and after it is filled in, and what it is to hold. */
  function Placeholder(o: Opt): seq<string> {
    Slot(o, Decimal(o.top))
  }

  function Filled(o: Opt): seq<string> {
    Slot(o, if o.value == None then Decimal(o.top) else Shown(o.value.value, o.top))
  }

  function Wanted(o: Opt): seq<string> {
    Slot(o, Decimal(if o.value == None then o.top else o.value.value))
  }

  function Placeholders(os: seq<Opt>): seq<string> {
    if os == [] then [] else Placeholder(os[0]) + Placeholders(os[1..])
  }

  function AllFilled(os: seq<Opt>): seq<string> {
    if os == [] then [] else Filled(os[0]) + AllFilled(os[1..])
  }

  function AllWanted(os: seq<Opt>): (ts: seq<string>)
    ensures |ts| == |AllFilled(os)|
  {
    if os == [] then [] else Wanted(os[0]) + AllWanted(os[1..])
  }

  /** No token is an option with the letter. */
  predicate Free(tokens: seq<string>, letter: char) {
    forall i :: 0 <= i < |tokens| ==> !Names(tokens[i], letter)
  }

  /** No token is one of the options that are to be filled in. */
  predicate FreeOf(tokens: seq<string>, os: seq<Opt>) {
    forall i :: 0 <= i < |os| && os[i].value != None ==> Free(tokens, os[i].letter)
  }

  predicate Distinct(os: seq<Opt>) {
    && (forall i, j :: 0 <= i < j < |os| ==> os[i].letter != os[j].letter)
    && (forall i :: 0 <= i < |os| ==> !IsDelimiter(os[i].letter) && os[i].top >= 10)
  }

  lemma TokensOfOption(s: string, o: Opt)
    requires !IsDelimiter(o.letter)
    ensures Tokens(s + OptionText(o)) == Tokens(s) + Placeholder(o)
  {
    if o.appended {
      var option: string := ['-', o.letter];
      assert s + OptionText(o) == s + [' '] + (option + [' '] + Decimal(o.top));
      TokensOfConcat(s, ' ', option + [' '] + Decimal(o.top));
      TokensOfConcat(option, ' ', Decimal(o.top));
      TokensOfWord(option);
      TokensOfWord(Decimal(o.top));
    } else {
      assert s + "" == s;
    }
  }

  lemma {:induction false} TokensOfOptions(s: string, os: seq<Opt>)
    requires Distinct(os)
    ensures Tokens(s + OptionsText(os)) == Tokens(s) + Placeholders(os)
    decreases |os|
  {
    if os == [] {
      assert s + "" == s;
    } else {
      var t := s + OptionText(os[0]);
      TokensOfOption(s, os[0]);
      TokensOfOptions(t, os[1..]);
      Regroup(s, OptionText(os[0]), OptionsText(os[1..]));
      Regroup(Tokens(s), Placeholder(os[0]), Placeholders(os[1..]));
    }
  }

  /** The tokens of an argument text before the appended options. */
  function LineTokens(program: string, rest: string): seq<string> {
    ["./" + program] + Tokens(rest)
  }

  /** The tokens of an argument text: the program, the tokens of the line, and the options that were appended. */
  lemma ArgsTokens(program: string, rest: string, os: seq<Opt>)
    requires Distinct(os) && forall i :: 0 <= i < |program| ==> !IsDelimiter(program[i])
    ensures Tokens(ArgsText(program, rest, os)) == LineTokens(program, rest) + Placeholders(os)
  {
    TokensOfConcat("./" + program, ' ', rest);
    TokensOfWord("./" + program);
    TokensOfOptions("./" + program + " " + rest, os);
  }

  /** Filling in an appended option, when no token before it has its letter. */
  lemma AdjustedSlot(before: seq<string>, o: Opt, after: seq<string>)
    requires Free(before, o.letter) && o.appended && o.value != None
    ensures AdjustedBy(before + Placeholder(o) + after, o.letter, o.value) == before + Filled(o) + after
  {
    var tokens, k := before + Placeholder(o) + after, |before|;
    assert tokens[k] == ['-', o.letter] && tokens[k + 1] == Decimal(o.top);
    assert forall i :: 0 <= i < k ==> tokens[i] == before[i];
    FirstOptionIs(tokens, o.letter, k);
    var text := Decimal(o.value.value);
    assert Decimal(o.top)[..0] + Cut(text, |Decimal(o.top)|) == Shown(o.value.value, o.top);
  }

  lemma AdjustedStep(before: seq<string>, o: Opt, after: seq<string>)
    requires o.value != None ==> Free(before, o.letter) && Free(after, o.letter)
    ensures AdjustedBy(before + Placeholder(o) + after, o.letter, o.value) == before + Filled(o) + after
  {
    if o.value != None {
      if o.appended {
        AdjustedSlot(before, o, after);
      } else {
        var tokens := before + [] + after;
        FirstOptionIs(tokens, o.letter, |tokens|);
      }
    }
  }

  /** The options do not get in each other's way: their arguments are digits. */
  lemma {:induction false} PlaceholdersAreFree(os: seq<Opt>, letter: char)
    requires forall i :: 0 <= i < |os| ==> os[i].letter != letter
    ensures Free(Placeholders(os), letter)
  {
    if os != [] {
      PlaceholdersAreFree(os[1..], letter);
    }
  }

  function AdjustedInOrder(tokens: seq<string>, os: seq<Opt>): (after: seq<string>)
    ensures |after| == |tokens|
    decreases |os|
  {
    if os == [] then tokens else AdjustedInOrder(AdjustedBy(tokens, os[0].letter, os[0].value), os[1..])
  }

  /** Filling in one option after the other, each gets to its own place. */
  lemma {:induction false} EachIsFilled(before: seq<string>, os: seq<Opt>)
    requires Distinct(os) && FreeOf(before, os)
    ensures AdjustedInOrder(before + Placeholders(os), os) == before + AllFilled(os)
    decreases |os|
  {
    if os != [] {
      FirstIsFilled(before, os);
      FilledIsFree(before, os[0], os[1..]);
      EachIsFilled(before + Filled(os[0]), os[1..]);
      Regroup(before, Filled(os[0]), AllFilled(os[1..]));
    }
  }

  lemma FirstIsFilled(before: seq<string>, os: seq<Opt>)
    requires os != [] && Distinct(os) && FreeOf(before, os)
    ensures AdjustedInOrder(before + Placeholders(os), os)
            == AdjustedInOrder(before + Filled(os[0]) + Placeholders(os[1..]), os[1..])
  {
    PlaceholdersAreFree(os[1..], os[0].letter);
    AdjustedStep(before, os[0], Placeholders(os[1..]));
    Regroup(before, Placeholder(os[0]), Placeholders(os[1..]));
  }

  lemma FilledIsFree(before: seq<string>, o: Opt, others: seq<Opt>)
    requires FreeOf(before, others) && forall i :: 0 <= i < |others| ==> others[i].letter != o.letter
    ensures FreeOf(before + Filled(o), others)
  {
  }

  predicate AllFit(os: seq<Opt>) {
    forall i :: 0 <= i < |os| && os[i].appended && os[i].value != None ==> Fits(os[i].value.value, os[i].top)
  }

  lemma {:induction false} FilledAsWanted(os: seq<Opt>)
    requires Distinct(os)
    ensures AllFilled(os) == AllWanted(os) <==> AllFit(os)
  {
    if os != [] {
      FilledAsWanted(os[1..]);
      if os[0].value != None {
        ShownIsWhole(os[0].value.value, os[0].top);
      }
      FirstParts(Filled(os[0]), Wanted(os[0]), AllFilled(os[1..]), AllWanted(os[1..]));
    }
  }

  lemma FirstParts(a: seq<string>, b: seq<string>, c: seq<string>, d: seq<string>)
    requires |a| == |b|
    ensures a + c == b + d <==> a == b && c == d
  {
    if a + c == b + d {
      assert a == (a + c)[..|a|] && c == (a + c)[|a|..];
    }
  }

  /** The argument vector of a process whose line has none of the options that are filled in: each number stands behind
      its own option, and all of them whole if and only if they have fewer digits than their placeholders. */
  lemma FreeLineIsFilled(program: string, rest: string, os: seq<Opt>)
    requires Distinct(os) && FreeOf(Tokens(rest), os)
    requires forall i :: 0 <= i < |program| ==> !IsDelimiter(program[i])
    ensures var argv := AdjustedInOrder(Tokens(ArgsText(program, rest, os)), os);
            && argv == LineTokens(program, rest) + AllFilled(os)
            && (argv == LineTokens(program, rest) + AllWanted(os) <==> AllFit(os))
  {
    var base := LineTokens(program, rest);
    ArgsTokens(program, rest, os);
    EachIsFilled(base, os);
    FilledAsWanted(os);
    FirstParts(base, base, AllFilled(os), AllWanted(os));
  }

  // ---------- lines that have such an option themselves ----------

  /** The first tokens of a vector: those of the line, and the first appended option. */
  predicate IsHead(head: seq<string>) {
    && head != [] && |head[|head| - 1]| == 2
    && forall i :: 0 <= i < |head| ==> head[i] != ""
  }

  lemma NeverLonger(tokens: seq<string>, letter: char, value: Option<nat>, j: nat)
    requires j < |tokens|
    ensures |AdjustedBy(tokens, letter, value)[j]| <= |tokens[j]|
  {
  }

  lemma {:induction false} NeverLongerInOrder(tokens: seq<string>, os: seq<Opt>, j: nat)
    requires j < |tokens|
    ensures |AdjustedInOrder(tokens, os)[j]| <= |tokens[j]|
    decreases |os|
  {
    if os != [] {
      NeverLonger(tokens, os[0].letter, os[0].value, j);
      NeverLongerInOrder(AdjustedBy(tokens, os[0].letter, os[0].value), os[1..], j);
    }
  }

  /** An option that the line does not have is filled in after the head. */
  lemma HeadIsKept(tokens: seq<string>, head: seq<string>, letter: char, value: Option<nat>)
    requires IsHead(head) && head <= tokens
    requires value != None ==> Free(head[..|head| - 1], letter)
    ensures head <= AdjustedBy(tokens, letter, value)
  {
    var n, k := |head| - 1, FirstOption(tokens, letter);
    assert tokens[n] == head[n];
    assert forall i :: 0 <= i < n ==> tokens[i] == head[..n][i];
  }

  /** An option that the line has is taken, and what is overwritten gets shorter. */
  lemma TakenShortens(tokens: seq<string>, head: seq<string>, letter: char, value: nat) returns (j: nat)
    requires IsHead(head) && head <= tokens && !Free(head[..|head| - 1], letter)
    ensures j < |head| && |AdjustedBy(tokens, letter, Some(value))[j]| < |head[j]|
  {
    var n, k := |head| - 1, FirstOption(tokens, letter);
    var i :| 0 <= i < n && Names(head[..n][i], letter);
    assert tokens[i] == head[i];
    assert tokens[k] == head[k] && tokens[k + 1] == head[k + 1];
    j := if |tokens[k]| > 2 then k else k + 1;
  }

  lemma {:induction false} TakenFromLine(tokens: seq<string>, head: seq<string>, os: seq<Opt>) returns (j: nat)
    requires IsHead(head) && head <= tokens && !FreeOf(head[..|head| - 1], os)
    ensures j < |head| && |AdjustedInOrder(tokens, os)[j]| < |head[j]|
    decreases |os|
  {
    var o, front := os[0], head[..|head| - 1];
    var now := AdjustedBy(tokens, o.letter, o.value);
    if o.value != None && !Free(front, o.letter) {
      j := TakenShortens(tokens, head, o.letter, o.value.value);
      NeverLongerInOrder(now, os[1..], j);
    } else {
      HeadIsKept(tokens, head, o.letter, o.value);
      OthersAreNotFree(front, os);
      j := TakenFromLine(now, head, os[1..]);
    }
  }

  lemma OthersAreNotFree(front: seq<string>, os: seq<Opt>)
    requires os != [] && !FreeOf(front, os) && (os[0].value != None ==> Free(front, os[0].letter))
    ensures !FreeOf(front, os[1..])
  {
    var i :| 0 <= i < |os| && os[i].value != None && !Free(front, os[i].letter);
    assert os[1..][i - 1] == os[i];
  }

  lemma {:induction false} TokensAreNotEmpty(s: string)
    ensures forall i :: 0 <= i < |Tokens(s)| ==> Tokens(s)[i] != ""
    decreases |s|
  {
    if s != [] {
      if IsDelimiter(s[0]) {
        TokensAreNotEmpty(s[1..]);
      } else {
        if WordEnd(s) < |s| {
          TokensAreNotEmpty(s[WordEnd(s) + 1..]);
        }
      }
    }
  }

  /** The first token after those of the line names the first appended option. */
  lemma {:induction false} FirstAppended(os: seq<Opt>)
    requires exists i :: 0 <= i < |os| && os[i].appended
    ensures Placeholders(os) != [] && AllWanted(os) != []
    ensures Placeholders(os)[0] == AllWanted(os)[0] && |Placeholders(os)[0]| == 2
  {
    if !os[0].appended {
      var i :| 0 <= i < |os| && os[i].appended;
      assert os[1..][i - 1].appended;
      FirstAppended(os[1..]);
    }
  }

  lemma {:induction false} LineIsFreeOf(program: string, rest: string, os: seq<Opt>)
    ensures FreeOf(Tokens(rest), os) <==> FreeOf(LineTokens(program, rest), os)
  {
    forall i | 0 <= i < |os|
      ensures Free(Tokens(rest), os[i].letter) <==> Free(LineTokens(program, rest), os[i].letter)
    {
      LineIsFree(program, rest, os[i].letter);
    }
  }

  lemma HeadOf(line: seq<string>, others: seq<string>)
    requires others != []
    ensures line + [others[0]] <= line + others && (line + [others[0]])[..|line|] == line
  {
  }

  lemma TakenIsNotWanted(tokens: seq<string>, line: seq<string>, before: seq<string>, wanted: seq<string>, os: seq<Opt>)
    requires tokens == line + before && before != [] && wanted != [] && before[0] == wanted[0] && |before[0]| == 2
    requires !FreeOf(line, os) && forall i :: 0 <= i < |line| ==> line[i] != ""
    ensures AdjustedInOrder(tokens, os) != line + wanted
  {
    HeadOf(line, before);
    HeadOf(line, wanted);
    var j := TakenFromLine(tokens, line + [before[0]], os);
  }

  lemma LineTokensAreNotEmpty(program: string, rest: string)
    ensures forall i :: 0 <= i < |LineTokens(program, rest)| ==> LineTokens(program, rest)[i] != ""
  {
    TokensAreNotEmpty(rest);
  }

  lemma TakenLineIsNotWanted(tokens: seq<string>, program: string, rest: string, os: seq<Opt>)
    requires tokens == LineTokens(program, rest) + Placeholders(os)
    requires !FreeOf(Tokens(rest), os) && exists i :: 0 <= i < |os| && os[i].appended
    ensures AdjustedInOrder(tokens, os) != LineTokens(program, rest) + AllWanted(os)
  {
    FirstAppended(os);
    LineTokensAreNotEmpty(program, rest);
    LineIsFreeOf(program, rest, os);
    TakenIsNotWanted(tokens, LineTokens(program, rest), Placeholders(os), AllWanted(os), os);
  }

  /** The argument vector of a process is as wanted, with each whole number behind its own option, if and only if its
      line has none of the options that are filled in and all numbers have fewer digits than their placeholders. */
  lemma OptionsArrive(program: string, rest: string, os: seq<Opt>)
    requires Distinct(os) && exists i :: 0 <= i < |os| && os[i].appended
    requires forall i :: 0 <= i < |program| ==> !IsDelimiter(program[i])
    ensures AdjustedInOrder(Tokens(ArgsText(program, rest, os)), os) == LineTokens(program, rest) + AllWanted(os)
            <==> FreeOf(Tokens(rest), os) && AllFit(os)
  {
    if FreeOf(Tokens(rest), os) {
      FreeLineIsFilled(program, rest, os);
    } else {
      ArgsTokens(program, rest, os);
      TakenLineIsNotWanted(Tokens(ArgsText(program, rest, os)), program, rest, os);
    }
  }

  /** That of a client, in the order in which its options are filled in. The usage text promises that -v and -x are
      forced to their values on every line. */
  lemma ClientArguments(rest: string, v: Option<nat>, x: nat, r: Option<nat>, l: Option<nat>)
    ensures var os := ClientOptions(v, x, r, l);
            var argv := AdjustedAll(Tokens(ArgsText("client", rest, os)), v, Some(x), r, l);
            && (argv == LineTokens("client", rest) + AllWanted(os) <==> FreeOf(Tokens(rest), os) && AllFit(os))
            && (FreeOf(Tokens(rest), os) ==> argv == LineTokens("client", rest) + AllFilled(os))
  {
    var os := ClientOptions(v, x, r, l);
    assert os[1].appended;
    OptionsArrive("client", rest, os);
    if FreeOf(Tokens(rest), os) {
      FreeLineIsFilled("client", rest, os);
    }
    InOrder(Tokens(ArgsText("client", rest, os)), v, x, r, l);
  }

  /** What the usage text promises to append to the line of a client. */
  function ClientWanted(v: Option<nat>, x: nat, r: Option<nat>, l: Option<nat>): seq<string> {
    ServerWanted(v) + ["-x", Decimal(x)] + TracingWanted(r, l)
  }

  function ServerWanted(v: Option<nat>): seq<string> {
    if v == None then [] else ["-v", Decimal(v.value)]
  }

  function TracingWanted(r: Option<nat>, l: Option<nat>): seq<string> {
    if r == None || l == None then [] else ["-r", Decimal(r.value), "-l", Decimal(l.value)]
  }

  /** The line has none of those options, and the numbers have at most nine digits, or nineteen for the duration. */
  predicate ClientFits(line: seq<string>, v: Option<nat>, x: nat, r: Option<nat>, l: Option<nat>) {
    && Free(line, 'x') && x < 10_000_000_000_000_000_000
    && (v != None ==> Free(line, 'v') && v.value < 1_000_000_000)
    && (r != None ==> Free(line, 'r')) && (l != None ==> Free(line, 'l'))
    && (r != None && l != None ==> r.value < 1_000_000_000 && l.value < 1_000_000_000)
  }

  lemma WantedIs(o: Opt, name: string)
    requires o.appended && o.value != None && name == ['-', o.letter]
    ensures Wanted(o) == [name, Decimal(o.value.value)]
  {
  }

  lemma FourWanted(a: Opt, b: Opt, c: Opt, d: Opt)
    ensures AllWanted([a, b, c, d]) == Wanted(a) + Wanted(b) + (Wanted(c) + Wanted(d))
  {
    assert [d][1..] == [] && [c, d][1..] == [d] && [b, c, d][1..] == [c, d] && [a, b, c, d][1..] == [b, c, d];
    assert AllWanted([d]) == Wanted(d);
    assert AllWanted([c, d]) == Wanted(c) + AllWanted([d]);
    assert AllWanted([b, c, d]) == Wanted(b) + AllWanted([c, d]);
    assert AllWanted([a, b, c, d]) == Wanted(a) + AllWanted([b, c, d]);
    Regroup(Wanted(a), Wanted(b), Wanted(c) + Wanted(d));
  }

  lemma WantedServer(v: Option<nat>)
    ensures Wanted(Opt(v != None, 'v', INT_MAX, v)) == ServerWanted(v)
  {
    if v != None {
      WantedIs(Opt(true, 'v', INT_MAX, v), "-v");
    }
  }

  lemma WantedTracing(r: Option<nat>, l: Option<nat>)
    ensures var tracing := r != None && l != None;
            Wanted(Opt(tracing, 'r', INT_MAX, r)) + Wanted(Opt(tracing, 'l', INT_MAX, l)) == TracingWanted(r, l)
  {
    if r != None && l != None {
      WantedIs(Opt(true, 'r', INT_MAX, r), "-r");
      WantedIs(Opt(true, 'l', INT_MAX, l), "-l");
    }
  }

  lemma WantedOfFour(os: seq<Opt>, a: seq<string>, b: seq<string>, c: seq<string>)
    requires |os| == 4 && Wanted(os[0]) == a && Wanted(os[1]) == b && Wanted(os[2]) + Wanted(os[3]) == c
    ensures AllWanted(os) == a + b + c
  {
    assert os == [os[0], os[1], os[2], os[3]];
    FourWanted(os[0], os[1], os[2], os[3]);
  }

  lemma WantedOfClient(v: Option<nat>, x: nat, r: Option<nat>, l: Option<nat>)
    ensures AllWanted(ClientOptions(v, x, r, l)) == ClientWanted(v, x, r, l)
  {
    WantedServer(v);
    WantedIs(Opt(true, 'x', ULONG_MAX, Some(x)), "-x");
    WantedTracing(r, l);
    WantedOfFour(ClientOptions(v, x, r, l), ServerWanted(v), ["-x", Decimal(x)], TracingWanted(r, l));
  }

  /** One option does not get in the way of its arrival. */
  predicate CanArrive(line: seq<string>, o: Opt) {
    o.value != None ==> Free(line, o.letter) && (o.appended ==> Fits(o.value.value, o.top))
  }

  lemma FourArrive(line: seq<string>, os: seq<Opt>)
    requires |os| == 4
    ensures FreeOf(line, os) && AllFit(os)
            <==> CanArrive(line, os[0]) && CanArrive(line, os[1]) && CanArrive(line, os[2]) && CanArrive(line, os[3])
  {
  }

  lemma IntArrives(line: seq<string>, appended: bool, letter: char, v: Option<nat>)
    ensures CanArrive(line, Opt(appended, letter, INT_MAX, v))
            <==> (v != None ==> Free(line, letter) && (appended ==> v.value < 1_000_000_000))
  {
    if v != None {
      FitsMeans(v.value);
    }
  }

  lemma FitsOfClient(line: seq<string>, v: Option<nat>, x: nat, r: Option<nat>, l: Option<nat>)
    ensures FreeOf(line, ClientOptions(v, x, r, l)) && AllFit(ClientOptions(v, x, r, l)) <==> ClientFits(line, v, x, r, l)
  {
    var tracing := r != None && l != None;
    FourArrive(line, ClientOptions(v, x, r, l));
    IntArrives(line, v != None, 'v', v);
    IntArrives(line, tracing, 'r', r);
    IntArrives(line, tracing, 'l', l);
    FitsMeans(x);
  }

  lemma LineOfClient(rest: string)
    ensures LineTokens("client", rest) == ["./client"] + Tokens(rest)
  {
    assert "./" + "client" == "./client";
  }

  /** The vector of a client is its program, the tokens of its line and those options if and only if that is so. */
  lemma ClientVector(rest: string, v: Option<nat>, x: nat, r: Option<nat>, l: Option<nat>)
    ensures AdjustedAll(Tokens(ArgsText("client", rest, ClientOptions(v, x, r, l))), v, Some(x), r, l)
            == ["./client"] + Tokens(rest) + ClientWanted(v, x, r, l)
            <==> ClientFits(Tokens(rest), v, x, r, l)
  {
    ClientArguments(rest, v, x, r, l);
    WantedOfClient(v, x, r, l);
    FitsOfClient(Tokens(rest), v, x, r, l);
    LineOfClient(rest);
  }

  /** A client line that ends in "-x 60", as the one shown in the usage text does: whatever stands before it and whatever
      the numbers are, the vector is not as wanted. */
  lemma UsageLineFails(front: string, v: Option<nat>, x: nat, r: Option<nat>, l: Option<nat>)
    ensures AdjustedAll(Tokens(ArgsText("client", front + " -x 60", ClientOptions(v, x, r, l))), v, Some(x), r, l)
            != ["./client"] + Tokens(front + " -x 60") + ClientWanted(v, x, r, l)
  {
    ClientVector(front + " -x 60", v, x, r, l);
    OwnOption(front);
  }

  lemma OwnOption(front: string)
    ensures !Free(Tokens(front + " -x 60"), 'x')
  {
    OptionOfUsage();
    TokensOfConcat(front, ' ', "-x 60");
    assert front + " -x 60" == front + [' '] + "-x 60";
    assert Names(Tokens(front + " -x 60")[|Tokens(front)|], 'x');
  }

  lemma OptionOfUsage()
    ensures Tokens("-x 60") != [] && Tokens("-x 60")[0] == "-x"
  {
    TokensOfConcat("-x", ' ', "60");
    TokensOfWord("-x");
    assert "-x" + [' '] + "60" == "-x 60";
  }

  lemma FirstInOrder(tokens: seq<string>, o: Opt, os: seq<Opt>)
    ensures AdjustedInOrder(tokens, [o] + os) == AdjustedInOrder(AdjustedBy(tokens, o.letter, o.value), os)
  {
    assert ([o] + os)[1..] == os;
  }

  lemma InOrder(tokens: seq<string>, v: Option<nat>, x: nat, r: Option<nat>, l: Option<nat>)
    ensures AdjustedInOrder(tokens, ClientOptions(v, x, r, l)) == AdjustedAll(tokens, v, Some(x), r, l)
  {
    var os := ClientOptions(v, x, r, l);
    var t1 := AdjustedBy(tokens, 'v', v);
    var t2 := AdjustedBy(t1, 'x', Some(x));
    var t3 := AdjustedBy(t2, 'r', r);
    assert os == [os[0]] + ([os[1]] + ([os[2]] + ([os[3]] + [])));
    FirstInOrder(tokens, os[0], [os[1]] + ([os[2]] + ([os[3]] + [])));
    FirstInOrder(t1, os[1], [os[2]] + ([os[3]] + []));
    FirstInOrder(t2, os[2], [os[3]] + []);
    FirstInOrder(t3, os[3], []);
  }

  /** An option with that letter on the line itself is taken instead, and the appended one keeps its placeholder. */
  lemma EarlierOptionIsTaken(before: seq<string>, o: Opt)
    requires !Free(before, o.letter) && o.appended
    ensures var after := AdjustedBy(before + Placeholder(o), o.letter, o.value);
            after[|after| - 1] == Decimal(o.top)
  {
    var k :| 0 <= k < |before| && Names(before[k], o.letter);
    var tokens := before + Placeholder(o);
    assert Names(tokens[k], o.letter);
  }

  predicate StandsLast(argv: seq<string>, text: string) {
    argv != [] && argv[|argv| - 1] == text
  }

  /** In a process with one appended option, its number stands last in the vector if and only if its line has no such
      option of its own and the number has fewer digits than the placeholder. */
  lemma OneOptionArrives(program: string, rest: string, o: Opt)
    requires Distinct([o]) && forall i :: 0 <= i < |program| ==> !IsDelimiter(program[i])
    requires o.appended && o.value != None && o.value.value < o.top
    ensures var argv := AdjustedBy(Tokens(ArgsText(program, rest, [o])), o.letter, o.value);
            StandsLast(argv, Decimal(o.value.value))
            <==> Free(Tokens(rest), o.letter) && Fits(o.value.value, o.top)
  {
    OneOption(program, rest, o);
    LastArgument(LineTokens(program, rest), o);
    LineIsFree(program, rest, o.letter);
    DecimalsDiffer(o.value.value, o.top);
  }

  /** So the process ID of its subserver stands last in the vector of a server exactly if its line has no option -v and
      the ID has at most nine digits. */
  lemma SubserverArrives(rest: string, pid: nat)
    requires pid < INT_MAX
    ensures var text := ArgsText("server", rest, [Opt(true, 'v', INT_MAX, Some(pid))]);
            var argv := AdjustedBy(Tokens(text), 'v', Some(pid));
            StandsLast(argv, Decimal(pid)) <==> Free(Tokens(rest), 'v') && pid < 1_000_000_000
  {
    OneOptionArrives("server", rest, Opt(true, 'v', INT_MAX, Some(pid)));
    FitsMeans(pid);
  }

  function DurationOption(ms: nat): Opt {
    Opt(true, 'x', ULONG_MAX, Some(ms))
  }

  /** The vector that procs_make_argv makes for hrt_cbs. */
  function HrtCbsArgv(rest: string, ms: nat): (argv: seq<string>)
    ensures argv == AdjustedBy(Tokens(ArgsText("hrt_cbs", rest, [DurationOption(ms)])), 'x', Some(ms))
  {
    AdjustedAll(Tokens(ArgsText("hrt_cbs", rest, [DurationOption(ms)])), None, Some(ms), None, None)
  }

  /** And the duration stands last in that of hrt_cbs exactly if its line has no option -x and the duration has at most
      nineteen digits, although the usage text promises that -x is forced to that value. */
  lemma DurationArrives(rest: string, ms: nat)
    requires ms < ULONG_MAX
    ensures StandsLast(HrtCbsArgv(rest, ms), Decimal(ms))
            <==> Free(Tokens(rest), 'x') && ms < 10_000_000_000_000_000_000
  {
    OneOptionArrives("hrt_cbs", rest, DurationOption(ms));
    FitsMeans(ms);
  }

  lemma OneOption(program: string, rest: string, o: Opt)
    requires Distinct([o]) && forall i :: 0 <= i < |program| ==> !IsDelimiter(program[i])
    ensures Tokens(ArgsText(program, rest, [o])) == LineTokens(program, rest) + (Placeholder(o) + [])
  {
    ArgsTokens(program, rest, [o]);
    assert [o][1..] == [];
    assert Placeholders([o]) == Placeholder([o][0]) + Placeholders([o][1..]);
  }

  /** The last token of a vector with one option. */
  lemma LastArgument(base: seq<string>, o: Opt)
    requires o.appended && o.value != None && o.top >= 10
    ensures var argv := AdjustedBy(base + (Placeholder(o) + []), o.letter, o.value);
            && argv != []
            && argv[|argv| - 1] == (if Free(base, o.letter) then Shown(o.value.value, o.top) else Decimal(o.top))
            && (Shown(o.value.value, o.top) == Decimal(o.value.value) <==> Fits(o.value.value, o.top))
  {
    assert Placeholder(o) + [] == Placeholder(o);
    ShownIsWhole(o.value.value, o.top);
    if Free(base, o.letter) {
      Regroup(base, Placeholder(o), []);
      AdjustedStep(base, o, []);
    } else {
      EarlierOptionIsTaken(base, o);
    }
  }

  lemma DecimalsDiffer(m: nat, n: nat)
    ensures Decimal(m) == Decimal(n) <==> m == n
  {
    assert ValueOf(Decimal(m)) == m && ValueOf(Decimal(n)) == n;
  }

  lemma LineIsFree(program: string, rest: string, letter: char)
    ensures Free(Tokens(rest), letter) <==> Free(LineTokens(program, rest), letter)
  {
    if !Free(Tokens(rest), letter) {
      var k :| 0 <= k < |Tokens(rest)| && Names(Tokens(rest)[k], letter);
      assert LineTokens(program, rest)[k + 1] == Tokens(rest)[k];
    }
  }
}
