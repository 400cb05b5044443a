/** Removal of block comments from a character stream, one character of memory at a time, and
    the split of the rest into chunks that end in `;`, `{` or `}`. */
module CommentStripper {
  import opened Sequences

  // ----- what removing comments means

  predicate OpensAt(s: string, i: int) {
    0 <= i < |s| - 1 && s[i] == '/' && s[i + 1] == '*'
  }

  predicate ClosesAt(s: string, i: int) {
    0 <= i < |s| - 1 && s[i] == '*' && s[i + 1] == '/'
  }

  /** Where the leftmost comment opens, or -1. */
  function FindOpen(s: string): (i: int)
    ensures i == -1 || OpensAt(s, i)
    ensures forall j | 0 <= j && (j < i || i == -1) :: !OpensAt(s, j)
  {
    if s == "" then -1
    else if OpensAt(s, 0) then 0
    else
      var i := FindOpen(s[1..]);
      assert forall j :: 0 < j ==> OpensAt(s, j) == OpensAt(s[1..], j - 1);
      if i == -1 then -1 else i + 1
  }

  /** Where the first comment end stands, or -1. */
  function FindClose(s: string): (i: int)
    ensures i == -1 || ClosesAt(s, i)
    ensures forall j | 0 <= j && (j < i || i == -1) :: !ClosesAt(s, j)
  {
    if s == "" then -1
    else if ClosesAt(s, 0) then 0
    else
      var i := FindClose(s[1..]);
      assert forall j :: 0 < j ==> ClosesAt(s, j) == ClosesAt(s[1..], j - 1);
      if i == -1 then -1 else i + 1
  }

  /** `s` without a slash at its end. */
  function WithoutFinalSlash(s: string): string {
    if s != "" && s[|s| - 1] == '/' then s[..|s| - 1] else s
  }

  /** `s` from behind the first end of a comment. */
  function BehindComment(s: string): (r: string)
    ensures |r| <= |s|
  {
    var i := FindClose(s);
    if i == -1 then "" else s[i + 2..]
  }

  /** The text up to the leftmost comment, then the stripped text behind it; the rest of an
      unclosed comment is dropped, and so is one slash at the very end. */
  function Stripped(s: string): string
    decreases |s|
  {
    var i := FindOpen(s);
    if i == -1 then WithoutFinalSlash(s) else s[..i] + Stripped(BehindComment(s[i + 2..]))
  }

  /** Text without comments is kept, up to a slash at its end. */
  lemma StrippedPlain(s: string)
    requires forall i :: !OpensAt(s, i)
    ensures s == Stripped(s) + if s != "" && s[|s| - 1] == '/' then "/" else ""
  {
    NoOpen(s);
    FinalSlash(s);
  }

  lemma NoOpen(s: string)
    requires forall i :: !OpensAt(s, i)
    ensures Stripped(s) == WithoutFinalSlash(s)
  {
    var i := FindOpen(s);
    assert i == -1 || OpensAt(s, i);
  }

  lemma FinalSlash(s: string)
    ensures s == WithoutFinalSlash(s) + if s != "" && s[|s| - 1] == '/' then "/" else ""
  {
  }

  lemma FirstOpen(a: string, rest: string)
    requires forall i | 0 <= i < |a| :: !OpensAt(a + "/*", i)
    ensures FindOpen(a + "/*" + rest) == |a|
    ensures (a + "/*" + rest)[..|a|] == a && (a + "/*" + rest)[|a| + 2..] == rest
  {
    var s := a + "/*" + rest;
    assert OpensAt(s, |a|);
    forall i | 0 <= i < |a|
      ensures !OpensAt(s, i)
    {
      assert !OpensAt(a + "/*", i);
      assert s[i] == (a + "/*")[i] && s[i + 1] == (a + "/*")[i + 1];
    }
  }

  lemma FirstClose(b: string, rest: string)
    requires forall i | 0 <= i < |b| :: !ClosesAt(b + "*/", i)
    ensures BehindComment(b + "*/" + rest) == rest
  {
    var s := b + "*/" + rest;
    assert ClosesAt(s, |b|);
    forall i | 0 <= i < |b|
      ensures !ClosesAt(s, i)
    {
      assert !ClosesAt(b + "*/", i);
      assert s[i] == (b + "*/")[i] && s[i + 1] == (b + "*/")[i + 1];
    }
  }

  /** A comment is cut out, from its opening to its first end, and the text behind it is stripped. */
  lemma CommentCut(a: string, b: string, c: string)
    requires forall i | 0 <= i < |a| :: !OpensAt(a + "/*", i)
    requires forall i | 0 <= i < |b| :: !ClosesAt(b + "*/", i)
    ensures Stripped(a + "/*" + (b + "*/" + c)) == a + Stripped(c)
  {
    FirstOpen(a, b + "*/" + c);
    FirstClose(b, c);
  }

  /** A comment without an end is cut off. */
  lemma UnclosedCut(a: string, b: string)
    requires forall i | 0 <= i < |a| :: !OpensAt(a + "/*", i)
    requires forall i :: !ClosesAt(b, i)
    ensures Stripped(a + "/*" + b) == a
  {
    FirstOpen(a, b);
    assert FindClose(b) == -1;
  }

  // ----- one character more

  lemma OpensLater(c: char, s: string)
    requires !OpensAt([c] + s, 0)
    ensures FindOpen([c] + s) == if FindOpen(s) == -1 then -1 else FindOpen(s) + 1
  {
    assert ([c] + s)[1..] == s;
  }

  lemma SlashKept(c: char, s: string)
    requires s != "" || c != '/'
    ensures WithoutFinalSlash([c] + s) == [c] + WithoutFinalSlash(s)
  {
    var t := [c] + s;
    assert s != "" ==> t[|t| - 1] == s[|s| - 1] && t[..|t| - 1] == [c] + s[..|s| - 1];
  }

  /** A first character that opens no comment is kept, unless it is a lone slash. */
  lemma StrippedKeeps(c: char, s: string)
    requires !OpensAt([c] + s, 0) && (s != "" || c != '/')
    ensures Stripped([c] + s) == [c] + Stripped(s)
  {
    var t, i := [c] + s, FindOpen(s);
    OpensLater(c, s);
    if i == -1 {
      SlashKept(c, s);
    } else {
      var rest := Stripped(BehindComment(s[i + 2..]));
      assert t[i + 1 + 2..] == s[i + 2..] && t[..i + 1] == [c] + s[..i];
      assert Stripped(t) == t[..i + 1] + rest;
      Associate([c], s[..i], rest);
    }
  }

  lemma StrippedOpens(s: string)
    ensures Stripped(['/', '*'] + s) == Stripped(BehindComment(s))
  {
  }

  lemma BehindLater(c: char, s: string)
    requires !ClosesAt([c] + s, 0)
    ensures BehindComment([c] + s) == BehindComment(s)
  {
  }

  lemma BehindCloses(s: string)
    ensures BehindComment(['*', '/'] + s) == s
  {
  }

  // ----- the stripper

  /** What is still to be output in a state of the stripper, with `rest` to come. */
  ghost function Pending(inComment: bool, saw: string, rest: string): string {
    if inComment then Stripped(BehindComment(saw + rest)) else Stripped(saw + rest)
  }

  /** One turn of the stripper: its new state and what it outputs. */
  function Turn(inComment: bool, saw: string, c: char): (bool, string, string) {
    if inComment then
      if saw == "*" && c == '/' then (false, "", "")
      else (true, if c == '*' then "*" else "", "")
    else if saw == "/" && c == '*' then (true, "", "")
    else if c == '/' then (false, "/", saw)
    else (false, "", saw + [c])
  }

  ghost predicate GoodState(inComment: bool, saw: string) {
    saw == "" || saw == if inComment then "*" else "/"
  }

  lemma TurnInComment(saw: string, c: char, rest: string)
    requires GoodState(true, saw)
    ensures var (inComment', saw', emitted) := Turn(true, saw, c);
            Pending(true, saw, [c] + rest) == emitted + Pending(inComment', saw', rest)
  {
    assert "" + ([c] + rest) == [c] + rest && "" + rest == rest;
    if saw == "*" {
      assert saw + ([c] + rest) == ['*'] + ([c] + rest) == ['*', c] + rest;
      if c == '/' {
        BehindCloses(rest);
      } else {
        BehindLater('*', [c] + rest);
      }
    }
    if c == '*' {
      assert [c] + rest == "*" + rest;
    } else if saw != "*" || c != '/' {
      BehindLater(c, rest);
    }
  }

  lemma TurnOutside(saw: string, c: char, rest: string)
    requires GoodState(false, saw)
    ensures var (inComment', saw', emitted) := Turn(false, saw, c);
            Pending(false, saw, [c] + rest) == emitted + Pending(inComment', saw', rest)
  {
    assert "" + ([c] + rest) == [c] + rest && "" + rest == rest;
    if saw == "/" {
      assert saw + ([c] + rest) == ['/'] + ([c] + rest) == ['/', c] + rest;
      if c == '*' {
        StrippedOpens(rest);
      } else {
        StrippedKeeps('/', [c] + rest);
      }
    }
    if c == '/' {
      assert [c] + rest == "/" + rest;
    } else if saw != "/" || c != '*' {
      StrippedKeeps(c, rest);
      Associate(saw, [c], Stripped(rest));
    }
  }

  lemma PendingEnd(inComment: bool, saw: string)
    requires GoodState(inComment, saw)
    ensures Pending(inComment, saw, "") == ""
  {
  }

  lemma TurnPending(inComment: bool, saw: string, c: char, rest: string)
    requires GoodState(inComment, saw)
    ensures var (inComment', saw', emitted) := Turn(inComment, saw, c);
            && GoodState(inComment', saw')
            && Pending(inComment, saw, [c] + rest) == emitted + Pending(inComment', saw', rest)
  {
    if inComment {
      TurnInComment(saw, c, rest);
    } else {
      TurnOutside(saw, c, rest);
    }
  }

  /** The body of the stripper's loop. */
  method TakeTurn(wasInComment: bool, sawBefore: string, c: char)
    returns (inComment: bool, saw: string, emitted: string)
    requires GoodState(wasInComment, sawBefore)
    ensures (inComment, saw, emitted) == Turn(wasInComment, sawBefore, c)
  {
    inComment, saw, emitted := wasInComment, sawBefore, "";
    if inComment {
      if saw == "*" {
        if c == '/' {
          inComment := false;
        }
        saw := "";
      }
      if c == '*' {
        saw := "*";
      }
      return;
    }
    if saw == "/" {
      if c == '*' {
        inComment, saw := true, "";
        return;
      }
      emitted := saw;
      saw := "";
    }
    if c == '/' {
      saw := "/";
      return;
    }
    emitted := emitted + [c];
  }

  /** The output from a state on, for the characters `s`. */
  function Output(inComment: bool, saw: string, s: string): string
    decreases |s|
  {
    if s == "" then ""
    else
      var (inComment', saw', emitted) := Turn(inComment, saw, s[0]);
      emitted + Output(inComment', saw', s[1..])
  }

  lemma {:induction false} OutputIsPending(inComment: bool, saw: string, s: string)
    requires GoodState(inComment, saw)
    ensures Output(inComment, saw, s) == Pending(inComment, saw, s)
    decreases |s|
  {
    if s == "" {
      PendingEnd(inComment, saw);
    } else {
      assert s == [s[0]] + s[1..];
      TurnPending(inComment, saw, s[0], s[1..]);
      var (inComment', saw', emitted) := Turn(inComment, saw, s[0]);
      OutputIsPending(inComment', saw', s[1..]);
    }
  }

  lemma OutputNext(before: string, inComment: bool, saw: string, input: string, k: nat)
    requires k < |input|
    ensures var (inComment', saw', emitted) := Turn(inComment, saw, input[k]);
            before + Output(inComment, saw, input[k..]) == before + emitted + Output(inComment', saw', input[k + 1..])
  {
  }

  method RemoveMultilineComments(input: string) returns (out: string)
    ensures out == Stripped(input)
  {
    out := EmitTurns(input);
    OutputIsPending(false, "", input);
    assert "" + input == input;
  }

  /** The loop of the generator. */
  method EmitTurns(input: string) returns (out: string)
    ensures out == Output(false, "", input)
  {
    out := "";
    var saw, inComment := "", false;
    var k := 0;
    assert input[0..] == input;
    while k < |input|
      invariant 0 <= k <= |input| && GoodState(inComment, saw)
      invariant out + Output(inComment, saw, input[k..]) == Output(false, "", input)
    {
      OutputNext(out, inComment, saw, input, k);
      var emitted;
      inComment, saw, emitted := TakeTurn(inComment, saw, input[k]);
      out := out + emitted;
      k := k + 1;
    }
  }

  // ----- the chunker

  predicate IsDelimiter(c: char) {
    c == ';' || c == '{' || c == '}'
  }

  predicate Undelimited(s: string) {
    forall k | 0 <= k < |s| :: !IsDelimiter(s[k])
  }

  /** A piece of text with exactly one delimiter, at its end. */
  predicate IsChunk(s: string) {
    s != "" && IsDelimiter(s[|s| - 1]) && Undelimited(s[..|s| - 1])
  }

  function Joined(ss: seq<string>): string {
    if ss == [] then "" else ss[0] + Joined(ss[1..])
  }

  lemma {:induction false} JoinedSnoc(ss: seq<string>, s: string)
    ensures Joined(ss + [s]) == Joined(ss) + s
  {
    if ss == [] {
      assert Joined([s]) == s + Joined([]);
    } else {
      assert (ss + [s])[1..] == ss[1..] + [s];
      JoinedSnoc(ss[1..], s);
    }
  }

  /** `pieces` are chunks that make up `s`, except for a tail without delimiters. */
  predicate Chunked(s: string, pieces: seq<string>, tail: string) {
    && (forall k | 0 <= k < |pieces| :: IsChunk(pieces[k]))
    && Undelimited(tail)
    && s == Joined(pieces) + tail
  }

  lemma FirstDelimiter(s: string, ps: seq<string>, t: string)
    requires Chunked(s, ps, t)
    ensures Undelimited(s) <==> ps == []
  {
    if ps == [] {
      assert s == t;
    } else {
      var k := |ps[0]| - 1;
      assert s[k] == ps[0][k];
    }
  }

  /** There is only one way to cut a text into chunks and a tail. */
  lemma {:induction false} ChunkedUnique(s: string, ps: seq<string>, t: string, qs: seq<string>, u: string)
    requires Chunked(s, ps, t) && Chunked(s, qs, u)
    ensures ps == qs && t == u
    decreases |ps| + |qs|
  {
    if ps == [] || qs == [] {
      assert Joined([]) + t == t && Joined([]) + u == u;
      FirstDelimiter(s, ps, t);
      FirstDelimiter(s, qs, u);
    } else {
      var m, n := |ps[0]|, |qs[0]|;
      assert s[m - 1] == ps[0][m - 1] && s[n - 1] == qs[0][n - 1];
      assert forall k | 0 <= k < m - 1 :: s[k] == ps[0][..m - 1][k];
      assert forall k | 0 <= k < n - 1 :: s[k] == qs[0][..n - 1][k];
      assert m == n;
      assert ps[0] == s[..m] == qs[0];
      assert s[m..] == Joined(ps[1..]) + t == Joined(qs[1..]) + u;
      ChunkedUnique(s[m..], ps[1..], t, qs[1..], u);
      assert ps == [ps[0]] + ps[1..] && qs == [qs[0]] + qs[1..];
    }
  }

  function WithoutLeadingNewlines(s: string): (r: string)
    ensures r == "" || r[0] != '\n'
    ensures |r| <= |s| && r == s[|s| - |r|..] && forall k | 0 <= k < |s| - |r| :: s[k] == '\n'
  {
    if s != "" && s[0] == '\n' then WithoutLeadingNewlines(s[1..]) else s
  }

  function Trimmed(pieces: seq<string>): seq<string> {
    seq(|pieces|, k requires 0 <= k < |pieces| => WithoutLeadingNewlines(pieces[k]))
  }

  lemma ChunkEnds(s: string, pieces: seq<string>, current: string, c: char)
    requires Chunked(s, pieces, current)
    ensures if IsDelimiter(c) then Chunked(s + [c], pieces + [current + [c]], "")
            else Chunked(s + [c], pieces, current + [c])
  {
    Associate(Joined(pieces), current, [c]);
    if IsDelimiter(c) {
      var chunk := current + [c];
      assert chunk[..|chunk| - 1] == current;
      JoinedSnoc(pieces, chunk);
      assert s + [c] == Joined(pieces + [chunk]) + "";
    }
  }

  method AccLines(input: string) returns (chunks: seq<string>)
    ensures exists pieces, tail :: Chunked(input, pieces, tail) && chunks == Trimmed(pieces)
  {
    chunks := [];
    ghost var pieces: seq<string> := [];
    var current := "";
    var k := 0;
    while k < |input|
      invariant 0 <= k <= |input|
      invariant Chunked(input[..k], pieces, current) && chunks == Trimmed(pieces)
    {
      var c := input[k];
      ChunkEnds(input[..k], pieces, current, c);
      assert input[..k + 1] == input[..k] + [c];
      current := current + [c];
      if IsDelimiter(c) {
        chunks := chunks + [WithoutLeadingNewlines(current)];
        pieces := pieces + [current];
        current := "";
      }
      k := k + 1;
    }
    assert input[..k] == input;
  }

  // ----- from lines to characters

  /** The characters of the lines, with a space for every newline. */
  function Spaced(lines: seq<string>): string {
    var text := Joined(lines);
    seq(|text|, k requires 0 <= k < |text| => if text[k] == '\n' then ' ' else text[k])
  }

  method ToChar(lines: seq<string>) returns (out: string)
    ensures out == Spaced(lines)
    ensures |out| == |Joined(lines)|
    ensures forall k | 0 <= k < |out| :: out[k] == if Joined(lines)[k] == '\n' then ' ' else Joined(lines)[k]
  {
    out := "";
    var i := 0;
    while i < |lines|
      invariant 0 <= i <= |lines| && out == Spaced(lines[..i])
    {
      var line := lines[i];
      JoinedSnoc(lines[..i], line);
      assert lines[..i] + [line] == lines[..i + 1];
      var k := 0;
      while k < |line|
        invariant 0 <= k <= |line|
        invariant out == Spaced(lines[..i + 1])[..|Joined(lines[..i])| + k]
      {
        out := out + [if line[k] != '\n' then line[k] else ' '];
        k := k + 1;
      }
      i := i + 1;
    }
    assert lines[..i] == lines;
  }

  ghost predicate NoNewline(s: string) {
    forall k | 0 <= k < |s| :: s[k] != '\n'
  }

  lemma NoNewlineSlice(s: string, i: nat, j: nat)
    requires NoNewline(s) && i <= j <= |s|
    ensures NoNewline(s[i..j])
  {
  }

  lemma NoNewlineAppend(a: string, b: string)
    requires NoNewline(a) && NoNewline(b)
    ensures NoNewline(a + b)
  {
  }

  lemma BehindNoNewline(s: string, i: nat)
    requires NoNewline(s) && i <= |s|
    ensures NoNewline(BehindComment(s[i..]))
  {
  }

  lemma {:induction false} StrippedNoNewline(s: string)
    requires NoNewline(s)
    ensures NoNewline(Stripped(s))
    decreases |s|
  {
    var i := FindOpen(s);
    if i == -1 {
      assert WithoutFinalSlash(s) == s || WithoutFinalSlash(s) == s[0..|s| - 1];
    } else {
      BehindNoNewline(s, i + 2);
      StrippedNoNewline(BehindComment(s[i + 2..]));
      NoNewlineSlice(s, 0, i);
      assert s[..i] == s[0..i];
      NoNewlineAppend(s[..i], Stripped(BehindComment(s[i + 2..])));
    }
  }

  lemma {:induction false} JoinedNoNewline(pieces: seq<string>, tail: string, k: int)
    requires NoNewline(Joined(pieces) + tail) && 0 <= k < |pieces|
    ensures NoNewline(pieces[k])
  {
    var s, first, rest := Joined(pieces) + tail, pieces[0], Joined(pieces[1..]) + tail;
    assert s == first + rest;
    assert forall j | 0 <= j < |first| :: first[j] == s[j];
    assert forall j | 0 <= j < |rest| :: rest[j] == s[|first| + j];
    if k > 0 {
      JoinedNoNewline(pieces[1..], tail, k - 1);
    }
  }

  // ----- the line comments

  predicate SlashesAt(s: string, i: int) {
    0 <= i < |s| - 1 && s[i] == '/' && s[i + 1] == '/'
  }

  function FromNewline(s: string): (r: string)
    ensures |r| <= |s|
  {
    if s == "" || s[0] == '\n' then s else FromNewline(s[1..])
  }

  /** A line after `re.sub`: without every stretch from two slashes up to the end of the line. */
  function WithoutLineComments(s: string): string
    decreases |s|
  {
    if s == "" then ""
    else if SlashesAt(s, 0) then WithoutLineComments(FromNewline(s[2..]))
    else [s[0]] + WithoutLineComments(s[1..])
  }

  /** Text before the first two slashes is kept. */
  lemma {:induction false} CodeKept(code: string, rest: string)
    requires forall k | 0 <= k < |code| :: !SlashesAt(code + rest, k)
    ensures WithoutLineComments(code + rest) == code + WithoutLineComments(rest)
    decreases |code|
  {
    if code == "" {
      assert code + rest == rest;
    } else {
      var s, tail := code + rest, code[1..] + rest;
      assert s[1..] == tail && s[0] == code[0];
      forall k | 0 <= k < |code[1..]|
        ensures !SlashesAt(tail, k)
      {
        assert !SlashesAt(s, k + 1);
      }
      CodeKept(code[1..], rest);
      assert !SlashesAt(s, 0);
      Associate([code[0]], code[1..], WithoutLineComments(rest));
    }
  }

  /** A comment is dropped up to its newline. */
  lemma {:induction false} CommentDropped(comment: string, rest: string)
    requires NoNewline(comment) && (rest == "" || rest[0] == '\n')
    ensures WithoutLineComments("//" + comment + rest) == WithoutLineComments(rest)
  {
    assert ("//" + comment + rest)[2..] == comment + rest;
    FromNewlineBehind(comment, rest);
  }

  lemma {:induction false} FromNewlineBehind(comment: string, rest: string)
    requires NoNewline(comment) && (rest == "" || rest[0] == '\n')
    ensures FromNewline(comment + rest) == rest
    decreases |comment|
  {
    if comment == "" {
      assert comment + rest == rest;
    } else {
      assert (comment + rest)[1..] == comment[1..] + rest && comment[0] != '\n';
      NoNewlineSlice(comment, 1, |comment|);
      FromNewlineBehind(comment[1..], rest);
    }
  }

  /** No comment is left. */
  lemma {:induction false} NoSlashesLeft(s: string, k: int)
    ensures !SlashesAt(WithoutLineComments(s), k)
    decreases |s|
  {
    if s != "" {
      if SlashesAt(s, 0) {
        NoSlashesLeft(FromNewline(s[2..]), k);
      } else {
        NoSlashesLeft(s[1..], k - 1);
        var rest := WithoutLineComments(s[1..]);
        assert ([s[0]] + rest)[1..] == rest;
        assert |s| > 1 && s[1] != '/' ==> rest != "" && rest[0] == s[1];
      }
    }
  }

  /** The line is code with a comment behind it, and perhaps a newline. */
  ghost predicate IsCommented(line: string, code: string, comment: string, end: string) {
    && line == code + "//" + comment + end
    && NoNewline(comment) && (end == "" || end == "\n")
    && forall k | 0 <= k < |code| :: !SlashesAt(code + "/", k)
  }

  /** A line after the removal of its comments: no two slashes are left, a line without any is kept,
      and of one with a comment the code before it is kept, and the newline. */
  ghost predicate Uncommented(line: string, r: string) {
    && (forall k :: !SlashesAt(r, k))
    && ((forall k :: !SlashesAt(line, k)) ==> r == line)
    && (forall code, comment, end | IsCommented(line, code, comment, end) :: r == code + end)
  }

  lemma CodeBefore(line: string, code: string, comment: string, end: string)
    requires IsCommented(line, code, comment, end)
    ensures WithoutLineComments(line) == code + end
  {
    var rest := "//" + comment + end;
    assert code + rest == line;
    forall k | 0 <= k < |code|
      ensures !SlashesAt(code + rest, k)
    {
      assert !SlashesAt(code + "/", k);
      assert (code + rest)[k] == (code + "/")[k] && (code + rest)[k + 1] == (code + "/")[k + 1];
    }
    CodeKept(code, rest);
    CommentDropped(comment, end);
    assert WithoutLineComments(end) == end;
  }

  lemma LineUncommented(line: string)
    ensures Uncommented(line, WithoutLineComments(line))
  {
    forall k
      ensures !SlashesAt(WithoutLineComments(line), k)
    {
      NoSlashesLeft(line, k);
    }
    if forall k :: !SlashesAt(line, k) {
      assert line + "" == line;
      CodeKept(line, "");
    }
    forall code, comment, end | IsCommented(line, code, comment, end)
      ensures WithoutLineComments(line) == code + end
    {
      CodeBefore(line, code, comment, end);
    }
  }

  predicate Skipped(line: string) {
    line != "" && line[0] == '#'
  }

  /** The lines that are no preprocessor lines, without their comments. */
  function CodeLines(lines: seq<string>): seq<string> {
    if lines == [] then []
    else
      var last := lines[|lines| - 1];
      CodeLines(lines[..|lines| - 1]) + if Skipped(last) then [] else [WithoutLineComments(last)]
  }

  predicate IsCode(lines: seq<string>, i: nat) {
    i < |lines| && !(lines[i] != "" && lines[i][0] == '#')
  }

  /** `picked` are the lines that do not begin with a hash, in their order. */
  ghost predicate PicksCode(lines: seq<string>, picked: seq<nat>) {
    && (forall j, k | 0 <= j < k < |picked| :: picked[j] < picked[k])
    && (forall i: nat :: i in picked <==> IsCode(lines, i))
  }

  ghost predicate UncommentedAt(lines: seq<string>, picked: seq<nat>, code: seq<string>, k: nat) {
    k < |picked| && k < |code| && picked[k] < |lines| && Uncommented(lines[picked[k]], code[k])
  }

  /** The code of some lines: those picked, without their comments. */
  ghost predicate CodeOf(lines: seq<string>, picked: seq<nat>, code: seq<string>) {
    && PicksCode(lines, picked)
    && |code| == |picked|
    && forall k: nat | k < |picked| :: UncommentedAt(lines, picked, code, k)
  }

  lemma PicksNext(lines: seq<string>, picked: seq<nat>, line: string)
    requires PicksCode(lines, picked)
    ensures PicksCode(lines + [line], if Skipped(line) then picked else picked + [|lines|])
  {
    var all, picked' := lines + [line], if Skipped(line) then picked else picked + [|lines|];
    forall i: nat
      ensures i in picked' <==> IsCode(all, i)
    {
      assert i in picked <==> IsCode(lines, i);
    }
    forall j, k | 0 <= j < k < |picked'|
      ensures picked'[j] < picked'[k]
    {
      assert j < |picked| && picked[j] in picked && IsCode(lines, picked[j]);
    }
  }

  lemma CodeNext(lines: seq<string>, picked: seq<nat>, code: seq<string>, line: string)
    requires CodeOf(lines, picked, code)
    ensures if Skipped(line) then CodeOf(lines + [line], picked, code)
            else CodeOf(lines + [line], picked + [|lines|], code + [WithoutLineComments(line)])
  {
    PicksNext(lines, picked, line);
    LineUncommented(line);
    var picked' := if Skipped(line) then picked else picked + [|lines|];
    var code' := if Skipped(line) then code else code + [WithoutLineComments(line)];
    forall k: nat | k < |picked'|
      ensures UncommentedAt(lines + [line], picked', code', k)
    {
      assert k < |picked| ==> UncommentedAt(lines, picked, code, k);
    }
  }

  lemma {:induction false} CodePicked(lines: seq<string>) returns (picked: seq<nat>)
    ensures CodeOf(lines, picked, CodeLines(lines))
  {
    picked := [];
    if lines != [] {
      var n := |lines| - 1;
      picked := CodePicked(lines[..n]);
      CodeNext(lines[..n], picked, CodeLines(lines[..n]), lines[n]);
      assert lines[..n] + [lines[n]] == lines;
      assert CodeLines(lines[..n]) + [] == CodeLines(lines[..n]);
      if !Skipped(lines[n]) {
        picked := picked + [n];
      }
    }
  }

  method RemoveSingleLineComments(lines: seq<string>) returns (out: seq<string>, ghost picked: seq<nat>)
    ensures out == CodeLines(lines) && CodeOf(lines, picked, out)
  {
    out := [];
    var k := 0;
    while k < |lines|
      invariant 0 <= k <= |lines| && out == CodeLines(lines[..k])
    {
      assert lines[..k + 1][..k] == lines[..k];
      if !Skipped(lines[k]) {
        out := out + [WithoutLineComments(lines[k])];
      }
      k := k + 1;
    }
    assert lines[..k] == lines;
    picked := CodePicked(lines);
  }

  // ----- the whole filter

  /** Nothing but the last character ends a declaration, and there is no newline. */
  predicate IsStatement(chunk: string) {
    && chunk != "" && chunk[|chunk| - 1] in ";{}"
    && forall k | 0 <= k < |chunk| - 1 :: chunk[k] !in ";{}\n"
  }

  lemma ChunkIsStatement(chunk: string)
    requires IsChunk(chunk) && NoNewline(chunk)
    ensures IsStatement(chunk)
  {
    var front := chunk[..|chunk| - 1];
    assert forall k | 0 <= k < |front| :: front[k] == chunk[k];
  }

  /** Without newlines nothing is lost from the chunks. */
  method Statements(text: string) returns (chunks: seq<string>, ghost tail: string)
    requires NoNewline(text)
    ensures Chunked(text, chunks, tail) && forall chunk <- chunks :: IsStatement(chunk)
  {
    chunks := AccLines(text);
    ghost var pieces, rest :| Chunked(text, pieces, rest) && chunks == Trimmed(pieces);
    tail := rest;
    forall k | 0 <= k < |pieces|
      ensures WithoutLeadingNewlines(pieces[k]) == pieces[k] && IsStatement(pieces[k])
    {
      JoinedNoNewline(pieces, tail, k);
      ChunkIsStatement(pieces[k]);
    }
    assert chunks == pieces;
  }

  /** The chunks and an undelimited tail make up exactly the text of the code lines, with spaces for
      newlines, without comments of either kind. */
  method Filter(lines: seq<string>)
    returns (chunks: seq<string>, ghost picked: seq<nat>, ghost code: seq<string>, ghost tail: string)
    ensures code == CodeLines(lines) && CodeOf(lines, picked, code)
    ensures Chunked(Stripped(Spaced(code)), chunks, tail)
    ensures forall chunk <- chunks :: IsStatement(chunk)
  {
    var codeLines;
    codeLines, picked := RemoveSingleLineComments(lines);
    code := codeLines;
    var chars := ToChar(codeLines);
    var text := RemoveMultilineComments(chars);
    StrippedNoNewline(chars);
    chunks, tail := Statements(text);
  }
}
