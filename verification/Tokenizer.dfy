/** The command line of the shell in Pipe/BushFix: trimming and splitting done in place
    on one NUL-terminated buffer. A pointer into the buffer is its offset, NULL is None. */
module Tokenizer {
  import opened Text

  const MAX_ARGS := 64

  /** The C string that starts at p is s. */
  ghost predicate IsText(b: seq<char>, p: nat, s: string) {
    p + |s| < |b| && b[p + |s|] == '\0' && (forall k :: p <= k < p + |s| ==> b[k] == s[k - p] != '\0')
  }

  lemma TextTail(b: seq<char>, p: nat, s: string, n: nat)
    requires IsText(b, p, s) && n <= |s|
    ensures IsText(b, p + n, s[n..])
    ensures b[p + n] == if n == |s| then '\0' else s[n]
  {
  }

  /** A NUL written into a string cuts it. */
  lemma TextCut(was: seq<char>, b: seq<char>, p: nat, s: string, n: nat)
    requires IsText(was, p, s) && n <= |s| && b == was[p + n := '\0']
    ensures IsText(b, p, s[..n])
    ensures n < |s| ==> IsText(b, p + n + 1, s[n + 1..])
  {
    forall k | p <= k < p + n ensures b[k] == s[..n][k - p] != '\0' {
      assert b[k] == was[k];
    }
    if n < |s| {
      TextTail(was, p, s, n + 1);
    }
  }

  /** Outside start .. end nothing has been written. */
  ghost predicate Untouched(was: seq<char>, b: seq<char>, start: nat, end: nat) {
    |b| == |was| && forall k :: 0 <= k < |b| && (k < start || end <= k) ==> b[k] == was[k]
  }

  lemma IsTextIsCStr(b: seq<char>, p: nat, s: string)
    requires IsText(b, p, s)
    ensures CStr(b[p..]) == s
  {
    forall i | 0 <= i < |s| ensures s[i] != '\0' {
      assert b[p + i] == s[i];
    }
    CStrTerminated(s, b[p + |s| + 1..]);
    assert b[p..] == s + ['\0'] + b[p + |s| + 1..];
  }

  // ---------------------------------------------------------------------------
  // Words of a line

  predicate IsSpaces(s: string) {
    forall k :: 0 <= k < |s| ==> s[k] == ' '
  }

  predicate IsWord(w: string) {
    w != "" && forall k :: 0 <= k < |w| ==> w[k] != ' '
  }

  function Skip(s: string): (t: string)
    ensures |t| <= |s|
  {
    if s == "" || s[0] != ' ' then s else Skip(s[1..])
  }

  function Word(s: string): (w: string)
    ensures |w| <= |s|
  {
    if s == "" || s[0] == ' ' then "" else [s[0]] + Word(s[1..])
  }

  /** The maximal runs of other characters than spaces. */
  function Words(s: string): seq<string>
    decreases |s|
  {
    var t := Skip(s);
    var w := Word(t);
    if w == "" then [] else [w] + Words(t[|w|..])
  }

  /** t is s without the spaces at both ends. */
  ghost predicate Trims(s: string, t: string) {
    && (t == "" || (t[0] != ' ' && t[|t| - 1] != ' '))
    && exists before, after :: IsSpaces(before) && IsSpaces(after) && s == before + t + after
  }

  function FirstWords(ws: seq<string>): seq<string> {
    if |ws| < MAX_ARGS then ws else ws[..MAX_ARGS - 1]
  }

  /** All the words up to 63 of them, the first 63 of more. */
  lemma FirstWordsAre(ws: seq<string>)
    ensures FirstWords(ws) <= ws && |FirstWords(ws)| == if |ws| <= 63 then |ws| else 63
  {
  }

  lemma {:induction false} SkipIs(gap: string, t: string)
    requires IsSpaces(gap) && (t == "" || t[0] != ' ')
    ensures Skip(gap + t) == t
  {
    if gap != "" {
      SkipIs(gap[1..], t);
      assert (gap + t)[1..] == gap[1..] + t;
    } else {
      assert gap + t == t;
    }
  }

  lemma {:induction false} WordIs(w: string, r: string)
    requires w == "" || IsWord(w)
    requires r == "" || r[0] == ' '
    ensures Word(w + r) == w
  {
    if w != "" {
      assert forall k :: 0 <= k < |w[1..]| ==> w[1..][k] == w[k + 1];
      WordIs(w[1..], r);
      assert (w + r)[1..] == w[1..] + r;
    } else {
      assert w + r == r;
    }
  }

  lemma WordsOfSpaces(gap: string)
    requires IsSpaces(gap)
    ensures Words(gap) == []
  {
    SkipIs(gap, "");
    assert gap + "" == gap;
  }

  lemma WordsOfFirst(gap: string, w: string, r: string)
    requires IsSpaces(gap) && IsWord(w) && (r == "" || r[0] == ' ')
    ensures Words(gap + w + r) == [w] + Words(r)
  {
    SkipIs(gap, w + r);
    assert gap + w + r == gap + (w + r);
    WordIs(w, r);
    assert (w + r)[|w|..] == r;
  }

  lemma {:induction false} FirstGap(s: string) returns (gap: string, t: string)
    ensures s == gap + t && IsSpaces(gap) && (t == "" || t[0] != ' ')
  {
    if s == "" || s[0] != ' ' {
      gap, t := "", s;
    } else {
      gap, t := FirstGap(s[1..]);
      gap := " " + gap;
      assert s == " " + s[1..];
    }
  }

  lemma {:induction false} FirstWord(t: string) returns (w: string, r: string)
    ensures t == w + r && (w == "" || IsWord(w)) && (r == "" || r[0] == ' ')
  {
    if t == "" || t[0] == ' ' {
      w, r := "", t;
    } else {
      w, r := FirstWord(t[1..]);
      w := [t[0]] + w;
      assert t == [t[0]] + t[1..];
    }
  }

  /** A line is spaces, then possibly a word and the rest. */
  lemma Split(s: string) returns (gap: string, w: string, r: string)
    ensures s == gap + w + r && IsSpaces(gap)
    ensures w == "" ==> s == gap && Words(s) == []
    ensures w != "" ==> IsWord(w) && (r == "" || r[0] == ' ') && Words(s) == [w] + Words(r)
  {
    var t;
    gap, t := FirstGap(s);
    w, r := FirstWord(t);
    assert s == gap + w + r;
    if w == "" {
      assert t == r == "";
      WordsOfSpaces(gap);
    } else {
      WordsOfFirst(gap, w, r);
    }
  }

  lemma {:induction false} SkipAfterSpaces(gap: string, s: string)
    requires IsSpaces(gap)
    ensures Skip(gap + s) == Skip(s)
  {
    if gap != "" {
      SkipAfterSpaces(gap[1..], s);
      assert (gap + s)[1..] == gap[1..] + s;
    } else {
      assert gap + s == s;
    }
  }

  lemma WordsBySkip(s: string, t: string)
    requires Skip(s) == Skip(t)
    ensures Words(s) == Words(t)
  {
  }

  /** Spaces in front of a line do not matter. */
  lemma WordsAfterSpaces(gap: string, s: string)
    requires IsSpaces(gap)
    ensures Words(gap + s) == Words(s)
  {
    SkipAfterSpaces(gap, s);
    WordsBySkip(gap + s, s);
  }

  // ---------------------------------------------------------------------------
  // The buffer operations

  method Strlen(b: array<char>, p: nat, ghost s: string) returns (n: nat)
    requires IsText(b[..], p, s)
    ensures n == |s|
  {
    n := 0;
    while b[p + n] != '\0'
      invariant n <= |s| && b[p + n] == (if n == |s| then '\0' else s[n])
      decreases |s| - n
    {
      n := n + 1;
    }
  }

  /** trim, called on the string s at str. */
  method Trim(b: array<char>, str: nat, ghost s: string) returns (start: nat, ghost t: string)
    requires IsText(b[..], str, s)
    modifies b
    ensures str <= start && start + |t| <= str + |s|
    ensures Trims(s, t) && IsText(b[..], start, t)
    ensures Untouched(old(b[..]), b[..], str, str + |s|)
  {
    ghost var was := b[..];
    start := str;
    while b[start] == ' '
      invariant str <= start <= str + |s|
      invariant b[start] == (if start == str + |s| then '\0' else s[start - str])
      invariant forall k :: 0 <= k < start - str ==> s[k] == ' '
      decreases str + |s| - start
    {
      start := start + 1;
    }
    ghost var r := s[start - str..];
    TextTail(was, str, s, start - str);
    var length := Strlen(b, start, r);
    var end: int := start + length - 1;
    while end > start && b[end] == ' '
      invariant start <= end < start + |r| || (end == start - 1 && r == "")
      invariant forall k :: end < k < start + |r| ==> was[k] == ' '
      decreases end
    {
      end := end - 1;
    }
    ghost var n := end + 1 - start;
    t := TrimmedAt(was, str, s, start, n);
    b[end + 1] := '\0';
    assert b[..] == was[start + n := '\0'];
  }

  lemma TrimmedAt(was: seq<char>, str: nat, s: string, start: nat, n: nat) returns (t: string)
    requires IsText(was, str, s) && str <= start && start + n <= str + |s|
    requires IsSpaces(s[..start - str]) && forall k :: start + n <= k < str + |s| ==> was[k] == ' '
    requires if n == 0 then start == str + |s| else was[start] != ' ' && was[start + n - 1] != ' '
    ensures |t| == n && Trims(s, t)
    ensures IsText(was[start + n := '\0'], start, t)
  {
    var r := s[start - str..];
    t := r[..n];
    TextTail(was, str, s, start - str);
    TextCut(was, was[start + n := '\0'], start, r, n);
    var before, after := s[..start - str], r[n..];
    forall k | 0 <= k < |after| ensures after[k] == ' ' {
      assert was[start + n + k] == after[k];
    }
    if n > 0 {
      assert t[0] == was[start] && t[n - 1] == was[start + n - 1];
    }
    assert IsSpaces(before) && IsSpaces(after) && s == before + t + after;
  }

  /** strspn(p, " ") on the string s at p: how many spaces it begins with. */
  method Strspn(b: array<char>, p: nat, ghost s: string) returns (n: nat, ghost gap: string, ghost t: string)
    requires IsText(b[..], p, s)
    ensures n <= |s| && (forall k :: 0 <= k < n ==> s[k] == ' ') && (n < |s| ==> s[n] != ' ')
    ensures n == |gap| && s == gap + t && IsText(b[..], p + n, t)
    ensures b[p + n] == if t == "" then '\0' else t[0]
    ensures IsSpaces(gap) && (t == "" || t[0] != ' ')
  {
    n := 0;
    while b[p + n] == ' '
      invariant n <= |s| && b[p + n] == (if n == |s| then '\0' else s[n])
      invariant forall k :: 0 <= k < n ==> s[k] == ' '
      decreases |s| - n
    {
      n := n + 1;
    }
    gap, t := s[..n], s[n..];
    TextTail(b[..], p, s, n);
    assert s == gap + t;
  }

  /** strcspn(p, " ") on the string s at p: how many characters stand before the first space. */
  method Strcspn(b: array<char>, p: nat, ghost s: string) returns (n: nat, ghost word: string, ghost r: string)
    requires IsText(b[..], p, s)
    ensures n <= |s| && (forall k :: 0 <= k < n ==> s[k] != ' ') && (n < |s| ==> s[n] == ' ')
    ensures n == |word| && s == word + r && IsText(b[..], p + n, r)
    ensures (word == "" || IsWord(word)) && (r == "" || r[0] == ' ')
  {
    n := 0;
    while b[p + n] != ' ' && b[p + n] != '\0'
      invariant n <= |s| && b[p + n] == (if n == |s| then '\0' else s[n])
      invariant forall k :: 0 <= k < n ==> s[k] != ' '
      decreases |s| - n
    {
      n := n + 1;
    }
    word, r := s[..n], s[n..];
    TextTail(b[..], p, s, n);
    assert s == word + r;
  }

  /** Behind spaces stands the word, and behind the separator that ends it the rest. */
  ghost predicate Reads(s: string, word: string, rest: string) {
    && IsWord(word)
    && exists gap :: IsSpaces(gap) && (s == gap + word + " " + rest || (s == gap + word && rest == ""))
  }

  lemma ReadsFirst(s: string, word: string, rest: string)
    requires Reads(s, word, rest)
    ensures Words(s) == [word] + Words(rest)
  {
    var gap :| IsSpaces(gap) && (s == gap + word + " " + rest || (s == gap + word && rest == ""));
    if s == gap + word + " " + rest {
      assert s == gap + word + (" " + rest);
      WordsOfFirst(gap, word, " " + rest);
      WordsAfterSpaces(" ", rest);
    } else {
      assert s == gap + word + "";
      WordsOfFirst(gap, word, "");
    }
  }

  lemma ReadsUpTo(gap: string, word: string, r: string)
    requires IsSpaces(gap) && IsWord(word) && (r == "" || r[0] == ' ')
    ensures Reads(gap + (word + r), word, if r == "" then "" else r[1..])
  {
    assert gap + (word + r) == if r == "" then gap + word else gap + word + " " + r[1..];
  }

  /** texts[k] is what was left when word k was read. */
  ghost predicate Chain(texts: seq<string>, ws: seq<string>) {
    |texts| == |ws| + 1 && forall k :: 0 <= k < |ws| ==> Reads(texts[k], ws[k], texts[k + 1])
  }

  lemma {:induction false} ChainReadsWords(texts: seq<string>, ws: seq<string>)
    requires Chain(texts, ws)
    ensures Words(texts[0]) == ws + Words(texts[|ws|])
  {
    if ws != [] {
      var n := |ws| - 1;
      assert forall k :: 0 <= k < n ==> Reads(texts[k], ws[k], texts[k + 1]);
      ChainReadsWords(texts[..n + 1], ws[..n]);
      ReadsFirst(texts[n], ws[n], texts[n + 1]);
      assert ws == ws[..n] + [ws[n]];
    }
  }

  /** Reading stops at the end of the line or with the vector full. */
  lemma ChainIsWhole(texts: seq<string>, ws: seq<string>, token: Option<nat>, word: string, rest: string)
    requires Chain(texts, ws) && |ws| < MAX_ARGS
    requires if token == None then IsSpaces(texts[|ws|]) else |ws| == MAX_ARGS - 1 && Reads(texts[|ws|], word, rest)
    ensures FirstWords(Words(texts[0])) == ws
  {
    ChainReadsWords(texts, ws);
    if token == None {
      WordsOfSpaces(texts[|ws|]);
    } else {
      ReadsFirst(texts[|ws|], word, rest);
    }
  }

  /** strtok(p, " ") on the string s at p, or strtok(NULL, " ") when the saved pointer is p.
      `saved` is the pointer kept for the next call, where `rest` is found. */
  method Strtok(b: array<char>, p: nat, ghost s: string)
    returns (token: Option<nat>, saved: nat, ghost word: string, ghost rest: string)
    requires IsText(b[..], p, s)
    modifies b
    ensures p <= saved && saved + |rest| == p + |s| && IsText(b[..], saved, rest)
    ensures Untouched(old(b[..]), b[..], p, p + |s|)
    ensures token == None ==> IsSpaces(s)
    ensures token.Some? ==> Reads(s, word, rest)
    ensures token.Some? ==> Argument(b[..], token, word, p, saved, p + |s|)
  {
    var n, gap, t := Strspn(b, p, s);
    var first := p + n;
    if b[first] == '\0' {
      assert s == gap;
      return None, first, "", "";
    }
    var m, w, r := Strcspn(b, first, t);
    token, saved, word := Some(first), first + m, w;
    ghost var after, next;
    after, next, rest := TokenCut(b[..], p, s, gap, w, r);
    if b[saved] != '\0' {
      b[saved] := '\0';
      saved := saved + 1;
    }
    assert b[..] == after && saved == next;
  }

  /** The word found, the NUL put behind it, and where to go on. */
  lemma TokenCut(was: seq<char>, p: nat, s: string, gap: string, w: string, r: string)
    returns (b: seq<char>, saved: nat, rest: string)
    requires IsText(was, p, s) && s == gap + (w + r)
    requires IsSpaces(gap) && IsWord(w) && (r == "" || r[0] == ' ')
    ensures var at := p + |gap| + |w|;
            if was[at] == '\0' then b == was && saved == at else b == was[at := '\0'] && saved == at + 1
    ensures p <= saved && saved + |rest| == p + |s|
    ensures Reads(s, w, rest) && IsText(b, saved, rest)
    ensures Argument(b, Some(p + |gap|), w, p, saved, p + |s|)
    ensures Untouched(was, b, p, p + |s|)
  {
    var first, at := p + |gap|, p + |gap| + |w|;
    ReadsUpTo(gap, w, r);
    TextSplit(was, p, gap, w + r);
    TextSplit(was, first, w, r);
    b := was[at := '\0'];
    WordCut(was, b, first, w, r);
    if r == "" {
      assert b == was;
      saved, rest := at, "";
    } else {
      saved, rest := at + 1, r[1..];
    }
  }

  lemma TextSplit(b: seq<char>, p: nat, s: string, t: string)
    requires IsText(b, p, s + t)
    ensures IsText(b, p + |s|, t) && b[p + |s|] == if t == "" then '\0' else t[0]
  {
    TextTail(b, p, s + t, |s|);
    assert (s + t)[|s|..] == t;
  }

  lemma WordCut(was: seq<char>, b: seq<char>, first: nat, w: string, r: string)
    requires IsText(was, first, w + r) && b == was[first + |w| := '\0']
    ensures IsText(b, first, w) && (r != "" ==> IsText(b, first + |w| + 1, r[1..]))
  {
    var t := w + r;
    TextCut(was, b, first, t, |w|);
    assert t[..|w|] == w && (r != "" ==> t[|w| + 1..] == r[1..]);
  }

  /** A pointer between start and end at the string w; what strtok may still write, from
      `saved` up to end, is behind it. */
  ghost predicate Argument(b: seq<char>, a: Option<nat>, w: string, start: nat, saved: nat, end: nat) {
    a.Some? && IsText(b, a.value, w) && start <= a.value && (a.value + |w| < saved || a.value + |w| == end == saved)
  }

  ghost predicate Arguments(b: seq<char>, args: seq<Option<nat>>, ws: seq<string>, start: nat, saved: nat, end: nat) {
    |ws| <= |args| && forall k :: 0 <= k < |ws| ==> Argument(b, args[k], ws[k], start, saved, end)
  }

  /** Later calls of strtok leave the words already found alone. */
  lemma ArgumentsKept(was: seq<char>, b: seq<char>, args: seq<Option<nat>>, ws: seq<string>,
                      start: nat, saved: nat, later: nat, end: nat)
    requires Arguments(was, args, ws, start, saved, end)
    requires Untouched(was, b, saved, end) && saved <= later <= end
    ensures Arguments(b, args, ws, start, later, end)
  {
    forall k | 0 <= k < |ws| ensures Argument(b, args[k], ws[k], start, later, end) {
      assert Argument(was, args[k], ws[k], start, saved, end);
      if args[k].value + |ws[k]| < saved {
        TextKept(was, b, args[k].value, ws[k], saved, end);
      } else {
        assert b == was;
      }
    }
  }

  lemma ArgumentsAppend(b: seq<char>, args: seq<Option<nat>>, ws: seq<string>, a: Option<nat>, w: string,
                        start: nat, saved: nat, end: nat)
    requires Arguments(b, args, ws, start, saved, end) && |ws| < |args|
    requires Argument(b, a, w, start, saved, end)
    ensures Arguments(b, args[|ws| := a], ws + [w], start, saved, end)
  {
  }

  /** The argument vector for execvp: the words ws, then NULL. */
  ghost predicate Vector(b: seq<char>, args: seq<Option<nat>>, ws: seq<string>, start: nat, end: nat) {
    && |ws| < |args| && args[|ws|] == None
    && Arguments(b, args, ws, start, end, end)
  }

  /** What execvp reads through the vector: the words ws, and then the end. */
  ghost predicate Says(b: seq<char>, args: seq<Option<nat>>, ws: seq<string>) {
    && |ws| < |args| && args[|ws|] == None
    && (forall k :: 0 <= k < |ws| ==> args[k].Some? && args[k].value <= |b| && CStr(b[args[k].value..]) == ws[k])
  }

  lemma VectorSays(b: seq<char>, args: seq<Option<nat>>, ws: seq<string>, start: nat, end: nat)
    requires Vector(b, args, ws, start, end)
    ensures Says(b, args, ws)
  {
    forall k | 0 <= k < |ws|
      ensures args[k].Some? && args[k].value <= |b| && CStr(b[args[k].value..]) == ws[k]
    {
      assert Argument(b, args[k], ws[k], start, end, end);
      IsTextIsCStr(b, args[k].value, ws[k]);
    }
  }

  /** Between two calls of strtok: the words done are in the vector, and `word` is at hand. */
  ghost predicate Parsing(b: seq<char>, args: seq<Option<nat>>, texts: seq<string>, done: seq<string>,
                          token: Option<nat>, word: string, rest: string, start: nat, saved: nat, end: nat) {
    && Chain(texts, done) && Arguments(b, args, done, start, saved, end)
    && (if token == None then IsSpaces(texts[|done|])
        else Reads(texts[|done|], word, rest) && Argument(b, token, word, start, saved, end))
  }

  lemma ParsingStep(was: seq<char>, b: seq<char>, args: seq<Option<nat>>, texts: seq<string>, done: seq<string>,
                    token: Option<nat>, word: string, rest: string,
                    token': Option<nat>, word': string, rest': string,
                    start: nat, saved: nat, saved': nat, end: nat)
    requires Parsing(was, args, texts, done, token, word, rest, start, saved, end) && token != None
    requires |done| < |args| && Untouched(was, b, saved, end) && start <= saved <= saved' <= end
    requires if token' == None then IsSpaces(rest)
             else Reads(rest, word', rest') && Argument(b, token', word', saved, saved', end)
    ensures Parsing(b, args[|done| := token], texts + [rest], done + [word], token', word', rest', start, saved', end)
  {
    ArgumentsAppend(was, args, done, token, word, start, saved, end);
    ArgumentsKept(was, b, args[|done| := token], done + [word], start, saved, saved', end);
  }

  /** parse_arguments on the string s at str. */
  method ParseArguments(b: array<char>, str: nat, ghost s: string, args: array<Option<nat>>)
    requires IsText(b[..], str, s) && args.Length == MAX_ARGS
    modifies b, args
    ensures Vector(b[..], args[..], FirstWords(Words(s)), str, str + |s|)
    ensures Says(b[..], args[..], FirstWords(Words(s)))
    ensures Untouched(old(b[..]), b[..], str, str + |s|)
  {
    ghost var done, texts, token, word, rest;
    var count;
    count, done, texts, token, word, rest := CollectTokens(b, str, s, args);
    ChainIsWhole(texts, done, token, word, rest);
    args[count] := None;
    VectorSays(b[..], args[..], done, str, str + |s|);
  }

  /** Its loop: collect tokens until none is left or the vector is full. */
  method CollectTokens(b: array<char>, str: nat, ghost s: string, args: array<Option<nat>>)
    returns (count: nat, ghost done: seq<string>, ghost texts: seq<string>,
             ghost token: Option<nat>, ghost word: string, ghost rest: string)
    requires IsText(b[..], str, s) && args.Length == MAX_ARGS
    modifies b, args
    ensures count == |done| <= MAX_ARGS - 1 && texts != [] && texts[0] == s
    ensures Chain(texts, done) && Arguments(b[..], args[..], done, str, str + |s|, str + |s|)
    ensures if token == None then IsSpaces(texts[count]) else count == MAX_ARGS - 1 && Reads(texts[count], word, rest)
    ensures Untouched(old(b[..]), b[..], str, str + |s|)
  {
    ghost var end := str + |s|;
    done, texts, count := [], [s], 0;
    var next, saved;
    next, saved, word, rest := Strtok(b, str, s);
    while next != None && count < MAX_ARGS - 1
      invariant count == |done| <= MAX_ARGS - 1 && texts != [] && texts[0] == s
      invariant str <= saved && saved + |rest| == end && IsText(b[..], saved, rest)
      invariant Untouched(old(b[..]), b[..], str, end)
      invariant Parsing(b[..], args[..], texts, done, next, word, rest, str, saved, end)
    {
      ghost var was, values, next0, word0, rest0, saved0 := b[..], args[..], next, word, rest, saved;
      args[count] := next;
      next, saved, word, rest := Strtok(b, saved, rest);
      ParsingStep(was, b[..], values, texts, done, next0, word0, rest0, next, word, rest, str, saved0, saved, end);
      count, done, texts := count + 1, done + [word0], texts + [rest0];
      assert args[..] == values[count - 1 := next0];
    }
    token := next;
    ArgumentsKept(b[..], b[..], args[..], done, str, saved, end, end);
  }

  /** A vector made from the trimmed text t of s serves s, wherever else is written. */
  lemma VectorMoved(was: seq<char>, b: seq<char>, args: seq<Option<nat>>, s: string, t: string,
                    start: nat, low: nat, high: nat, written: nat, upTo: nat)
    requires Trims(s, t) && Vector(was, args, FirstWords(Words(t)), start, start + |t|)
    requires low <= start && start + |t| <= high
    requires Untouched(was, b, written, upTo) && (start + |t| < written || upTo <= start)
    ensures Vector(b, args, FirstWords(Words(s)), low, high)
  {
    TrimmingKeepsWords(s, t);
    var ws := FirstWords(Words(t));
    forall k | 0 <= k < |ws| ensures Argument(b, args[k], ws[k], low, high, high) {
      assert Argument(was, args[k], ws[k], start, start + |t|, start + |t|);
      TextKept(was, b, args[k].value, ws[k], written, upTo);
    }
  }

  lemma TextKept(was: seq<char>, b: seq<char>, p: nat, s: string, written: nat, upTo: nat)
    requires IsText(was, p, s)
    requires Untouched(was, b, written, upTo) && (p + |s| < written || upTo <= p)
    ensures IsText(b, p, s)
  {
  }

  /** The head of execute_pipe_command, for a line `left | right` at input: the four passes
      over the one buffer do not disturb each other. */
  method PipeCommand(b: array<char>, input: nat, pipePos: nat, ghost left: string, ghost right: string,
                     args1: array<Option<nat>>, args2: array<Option<nat>>)
    requires IsText(b[..], input, left + "|" + right) && pipePos == input + |left|
    requires args1.Length == args2.Length == MAX_ARGS && args1 != args2
    modifies b, args1, args2
    ensures Vector(b[..], args1[..], FirstWords(Words(left)), input, pipePos)
    ensures Vector(b[..], args2[..], FirstWords(Words(right)), pipePos + 1, pipePos + 1 + |right|)
    ensures Says(b[..], args1[..], FirstWords(Words(left)))
    ensures Says(b[..], args2[..], FirstWords(Words(right)))
  {
    var half := pipePos + 1;
    ghost var was0, end := b[..], half + |right|;
    b[pipePos] := '\0';
    SplitAtPipe(was0, b[..], input, left, right);

    ghost var was1 := b[..];
    var cmd1, text1 := Trim(b, input, left);
    TextKept(was1, b[..], half, right, input, pipePos);

    ghost var was2 := b[..];
    var cmd2, text2 := Trim(b, half, right);
    TextKept(was2, b[..], cmd1, text1, half, end);

    ghost var was3 := b[..];
    ParseArguments(b, cmd1, text1, args1);
    TextKept(was3, b[..], cmd2, text2, cmd1, cmd1 + |text1|);

    ghost var was4 := b[..];
    ParseArguments(b, cmd2, text2, args2);
    VectorMoved(was4, b[..], args1[..], left, text1, cmd1, input, pipePos, cmd2, cmd2 + |text2|);
    VectorMoved(b[..], b[..], args2[..], right, text2, cmd2, half, end, 0, 0);
    VectorSays(b[..], args1[..], FirstWords(Words(left)), input, pipePos);
    VectorSays(b[..], args2[..], FirstWords(Words(right)), half, end);
  }

  lemma SplitAtPipe(was: seq<char>, b: seq<char>, input: nat, left: string, right: string)
    requires IsText(was, input, left + "|" + right) && b == was[input + |left| := '\0']
    ensures IsText(b, input, left) && IsText(b, input + |left| + 1, right)
  {
    var s := left + "|" + right;
    TextCut(was, b, input, s, |left|);
    assert s[..|left|] == left && s[|left| + 1..] == right;
  }

  // ---------------------------------------------------------------------------
  // Splitting is the inverse of joining

  /** Words set apart by gaps; gap k stands before word k and the last gap ends the line. */
  ghost predicate Spaced(ws: seq<string>, gaps: seq<string>) {
    && |gaps| == |ws| + 1
    && (forall k :: 0 <= k < |ws| ==> IsWord(ws[k]))
    && (forall k :: 0 <= k < |gaps| ==> IsSpaces(gaps[k]))
    && (forall k :: 0 < k < |ws| ==> gaps[k] != "")
  }

  function Joined(ws: seq<string>, gaps: seq<string>): string
    requires |gaps| == |ws| + 1
  {
    if ws == [] then gaps[0] else gaps[0] + ws[0] + Joined(ws[1..], gaps[1..])
  }

  /** Any words, however many, joined by any runs of spaces, are found again. */
  lemma {:induction false} WordsOfJoined(ws: seq<string>, gaps: seq<string>)
    requires Spaced(ws, gaps)
    ensures Words(Joined(ws, gaps)) == ws
  {
    if ws == [] {
      WordsOfSpaces(gaps[0]);
    } else {
      var rest := Joined(ws[1..], gaps[1..]);
      WordsOfJoined(ws[1..], gaps[1..]);
      WordsOfFirst(gaps[0], ws[0], rest);
    }
  }

  /** Every line is such words joined by such gaps, and they are the words found: nothing
      but spaces is lost. */
  lemma {:induction false} JoinedWords(s: string) returns (gaps: seq<string>)
    ensures Spaced(Words(s), gaps) && Joined(Words(s), gaps) == s
    decreases |s|
  {
    var gap, w, r := Split(s);
    if w == "" {
      gaps := [s];
    } else {
      var more := JoinedWords(r);
      gaps := [gap] + more;
      if Words(r) != [] && more[0] == "" {
        JoinedFirst(Words(r), more);
      }
      JoinedStep(gap, w, Words(r), more);
    }
  }

  lemma JoinedFirst(ws: seq<string>, gaps: seq<string>)
    requires Spaced(ws, gaps) && ws != [] && gaps[0] == ""
    ensures Joined(ws, gaps) != "" && Joined(ws, gaps)[0] != ' '
  {
    assert Joined(ws, gaps)[0] == ws[0][0];
  }

  lemma JoinedStep(gap: string, w: string, ws: seq<string>, gaps: seq<string>)
    requires |gaps| == |ws| + 1
    ensures Joined([w] + ws, [gap] + gaps) == gap + w + Joined(ws, gaps)
    ensures IsSpaces(gap) && IsWord(w) && Spaced(ws, gaps) && (ws != [] ==> gaps[0] != "") ==>
              Spaced([w] + ws, [gap] + gaps)
  {
    assert ([w] + ws)[1..] == ws && ([gap] + gaps)[1..] == gaps;
  }

  lemma {:induction false} JoinedLonger(ws: seq<string>, gaps: seq<string>, longer: seq<string>, after: string)
    requires |gaps| == |longer| == |ws| + 1 && longer[|ws|] == gaps[|ws|] + after
    requires forall k :: 0 <= k < |ws| ==> longer[k] == gaps[k]
    ensures Joined(ws, longer) == Joined(ws, gaps) + after
  {
    if ws != [] {
      JoinedLonger(ws[1..], gaps[1..], longer[1..], after);
    }
  }

  /** Spaces behind a line do not matter either. */
  lemma WordsBeforeSpaces(s: string, after: string)
    requires IsSpaces(after)
    ensures Words(s + after) == Words(s)
  {
    var ws := Words(s);
    var gaps := JoinedWords(s);
    var longer := gaps[|ws| := gaps[|ws|] + after];
    JoinedLonger(ws, gaps, longer, after);
    WordsOfJoined(ws, longer);
  }

  /** A line has one trimmed text. */
  lemma TrimsUnique(s: string, t: string, u: string)
    requires Trims(s, t) && Trims(s, u)
    ensures t == u
  {
    var b1, a1 :| IsSpaces(b1) && IsSpaces(a1) && s == b1 + t + a1;
    var b2, a2 :| IsSpaces(b2) && IsSpaces(a2) && s == b2 + u + a2;
    EndsAt(s, b1, t, a1);
    EndsAt(s, b2, u, a2);
    if t == "" || u == "" {
      assert t == u;
    } else {
      assert |b1| == |b2| && |b1| + |t| == |b2| + |u|;
      assert t == s[|b1|..|b1| + |t|] == u;
    }
  }

  /** Where the trimmed text begins and ends is where spaces end and begin. */
  lemma EndsAt(s: string, before: string, t: string, after: string)
    requires IsSpaces(before) && IsSpaces(after) && s == before + t + after
    requires t == "" || (t[0] != ' ' && t[|t| - 1] != ' ')
    ensures t == "" ==> IsSpaces(s)
    ensures t != "" ==> s[|before|] != ' ' && s[|before| + |t| - 1] != ' '
    ensures forall k :: 0 <= k < |before| || |before| + |t| <= k < |s| ==> s[k] == ' '
  {
  }

  /** Trimming first never changes the words. */
  lemma TrimmingKeepsWords(s: string, t: string)
    requires Trims(s, t)
    ensures Words(t) == Words(s)
  {
    var before, after :| IsSpaces(before) && IsSpaces(after) && s == before + t + after;
    assert s == before + (t + after);
    WordsAfterSpaces(before, t + after);
    WordsBeforeSpaces(t, after);
  }
}
