/** The command line of the test tool: splitting a line of input into words. */
module Tokenizer {
  import opened Options

  /** `isspace` in the C locale. */
  predicate IsSpace(c: char) {
    c == ' ' || c == '\t' || c == '\n' || c == '\U{0B}' || c == '\U{0C}' || c == '\r'
  }

  predicate Blank(s: string) { forall c :: c in s ==> IsSpace(c) }

  /** A word the tokenizer can produce. */
  predicate IsWord(s: string) {
    s != "" && forall c :: c in s ==> !IsSpace(c) && c != '\0'
  }

  /** A C string: the characters before the first NUL. */
  function Text(line: seq<char>): string {
    if line == [] || line[0] == '\0' then "" else [line[0]] + Text(line[1..])
  }

  /** The words still to come when `pending` is the run being read. */
  function Scan(pending: string, s: string): seq<string>
    decreases |s|
  {
    if s == "" then (if pending == "" then [] else [pending])
    else if IsSpace(s[0]) then (if pending == "" then [] else [pending]) + Scan("", s[1..])
    else Scan(pending + [s[0]], s[1..])
  }

  function Words(s: string): seq<string> { Scan("", s) }

  // ---------- the loop in `main` ----------

  function Found(command: Option<string>, args: seq<string>): seq<string> {
    if command.None? then args else [command.value] + args
  }

  /** At the end of a run: unless it is empty, it is a word, and goes to the command or to the arguments. */
  method EndOfWord(command: Option<string>, args: seq<string>, line: seq<char>, last: nat, cur: nat)
    returns (command': Option<string>, args': seq<string>)
    requires last <= cur <= |line| && (command.None? ==> args == [])
    ensures Found(command', args') == Found(command, args) + Run(line, last, cur)
    ensures command'.None? ==> args' == []
  {
    command', args' := command, args;
    if last < cur {
      if command.None? {
        command' := Some(line[last..cur]);
      } else {
        args' := args + [line[last..cur]];
      }
    }
  }

  /** The first word is the command and the others are its arguments.  `getline` ends the buffer with
      a NUL. */
  method Tokenize(line: seq<char>) returns (command: Option<string>, args: seq<string>)
    requires '\0' in line
    ensures command.None? ==> Words(Text(line)) == [] && args == []
    ensures command.Some? ==> Words(Text(line)) == [command.value] + args
  {
    command, args := None, [];
    var last, cur := 0, 0;
    ghost var nul :| 0 <= nul < |line| && line[nul] == '\0';
    AheadIsWords(line);
    while true
      invariant 0 <= last <= cur <= nul
      invariant command.None? ==> args == []
      invariant Reading(line, Found(command, args), last, cur)
      decreases nul - cur
    {
      ReadingOn(line, Found(command, args), last, cur);
      if Ends(line[cur]) {
        command, args := EndOfWord(command, args, line, last, cur);
        last := cur + 1;
        if line[cur] == '\0' {
          break;
        }
      }
      cur := cur + 1;
    }
  }

  /** The words found so far and those to come are all the words of the line. */
  ghost predicate Reading(line: seq<char>, found: seq<string>, last: nat, cur: nat)
    requires last <= cur <= |line|
  {
    found + Ahead(line, last, cur) == Ahead(line, 0, 0)
  }

  lemma ReadingOn(line: seq<char>, found: seq<string>, last: nat, cur: nat)
    requires last <= cur < |line| && Reading(line, found, last, cur)
    ensures var longer := found + Run(line, last, cur);
            if line[cur] == '\0' then longer == Ahead(line, 0, 0)
            else if IsSpace(line[cur]) then Reading(line, longer, cur + 1, cur + 1)
            else Reading(line, found, last, cur + 1)
  {
    if line[cur] != '\0' && IsSpace(line[cur]) {
      Regroup(found, Run(line, last, cur), Ahead(line, cur + 1, cur + 1));
    }
  }

  /** The run `[last, cur)` as a word, if it is one. */
  function Run(line: seq<char>, last: nat, cur: nat): seq<string>
    requires last <= cur <= |line|
  {
    if last < cur then [line[last..cur]] else []
  }

  /** The words from the run `[last, cur)` on, read off the line itself. */
  function Ahead(line: seq<char>, last: nat, cur: nat): seq<string>
    requires last <= cur <= |line|
    decreases |line| - cur
  {
    var run := Run(line, last, cur);
    if cur == |line| || line[cur] == '\0' then run
    else if IsSpace(line[cur]) then run + Ahead(line, cur + 1, cur + 1)
    else Ahead(line, last, cur + 1)
  }

  lemma Regroup(a: seq<string>, b: seq<string>, c: seq<string>)
    ensures (a + b) + c == a + (b + c)
  {
  }

  lemma {:induction false} AheadIsScan(line: seq<char>, last: nat, cur: nat)
    requires last <= cur <= |line|
    ensures Ahead(line, last, cur) == Scan(line[last..cur], Text(line[cur..]))
    decreases |line| - cur
  {
    var now := Scan(line[last..cur], Text(line[cur..]));
    if cur < |line| {
      ScanNext(line, last, cur, now);
      if line[cur] != '\0' {
        if IsSpace(line[cur]) {
          AheadIsScan(line, cur + 1, cur + 1);
        } else {
          AheadIsScan(line, last, cur + 1);
        }
      }
    }
  }

  lemma AheadIsWords(line: seq<char>)
    ensures Ahead(line, 0, 0) == Words(Text(line))
  {
    AheadIsScan(line, 0, 0);
    assert line[0..] == line && line[0..0] == "";
  }

  predicate Ends(c: char) { IsSpace(c) || c == '\0' }

  /** What is still to be read before and after looking at one character. */
  lemma ScanNext(line: seq<char>, last: nat, cur: nat, now: seq<string>)
    requires last <= cur < |line| && now == Scan(line[last..cur], Text(line[cur..]))
    ensures line[cur] == '\0' ==> now == if last < cur then [line[last..cur]] else []
    ensures line[cur] != '\0' && IsSpace(line[cur]) ==>
              var next := Scan(line[cur + 1..cur + 1], Text(line[cur + 1..]));
              now == if last < cur then [line[last..cur]] + next else next
    ensures !Ends(line[cur]) ==> now == Scan(line[last..cur + 1], Text(line[cur + 1..]))
  {
    assert line[cur..][1..] == line[cur + 1..];
    assert line[cur + 1..cur + 1] == "";
    if line[cur] != '\0' {
      assert Text(line[cur..])[1..] == Text(line[cur + 1..]);
      assert line[last..cur] + [line[cur]] == line[last..cur + 1];
    }
  }

  // ---------- what the words of a text are ----------

  /** Separators and words in turn, beginning and ending with a separator. */
  function Layout(seps: seq<string>, words: seq<string>): string
    requires |seps| == |words| + 1
  {
    if words == [] then seps[0] else seps[0] + words[0] + Layout(seps[1..], words[1..])
  }

  /** Words are separated by white space; only the outer separators may be empty. */
  ghost predicate Separates(seps: seq<string>, words: seq<string>) {
    && |seps| == |words| + 1
    && (forall i :: 0 <= i < |seps| ==> Blank(seps[i]))
    && (forall i :: 0 < i < |words| ==> seps[i] != "")
    && (forall i :: 0 <= i < |words| ==> words[i] != "" && NoSpace(words[i]))
  }

  predicate NoSpace(s: string) { forall c :: c in s ==> !IsSpace(c) }

  lemma {:induction false} ScanBlank(sep: string, s: string)
    requires Blank(sep)
    ensures Scan("", sep + s) == Scan("", s)
  {
    if sep == "" {
      assert sep + s == s;
    } else {
      assert (sep + s)[1..] == sep[1..] + s;
      ScanBlank(sep[1..], s);
    }
  }

  lemma {:induction false} ScanRun(pending: string, run: string, s: string)
    requires NoSpace(run)
    ensures Scan(pending, run + s) == Scan(pending + run, s)
    decreases |run|
  {
    if run == "" {
      assert run + s == s && pending + run == pending;
    } else {
      assert (run + s)[1..] == run[1..] + s;
      ScanRun(pending + [run[0]], run[1..], s);
      assert pending + [run[0]] + run[1..] == pending + run;
    }
  }

  lemma ScanEndOfWord(word: string, s: string)
    requires word != "" && (s == "" || IsSpace(s[0]))
    ensures Scan(word, s) == [word] + Scan("", s)
  {
  }

  lemma LayoutStart(seps: seq<string>, words: seq<string>)
    requires Separates(seps, words) && (words != [] ==> seps[0] != "")
    ensures var s := Layout(seps, words); s == "" || IsSpace(s[0])
  {
  }

  /** However a list of words is laid out with white space, its words are read back. */
  lemma {:induction false} WordsOfLayout(seps: seq<string>, words: seq<string>)
    requires Separates(seps, words)
    ensures Words(Layout(seps, words)) == words
  {
    if words == [] {
      assert seps[0] + "" == seps[0];
      ScanBlank(seps[0], "");
    } else {
      WordsOfLayout(seps[1..], words[1..]);
      LayoutStart(seps[1..], words[1..]);
      WordsNext(seps[0], words[0], Layout(seps[1..], words[1..]));
    }
  }

  lemma WordsNext(sep: string, word: string, rest: string)
    requires Blank(sep) && word != "" && NoSpace(word) && (rest == "" || IsSpace(rest[0]))
    ensures Words(sep + word + rest) == [word] + Words(rest)
  {
    assert sep + word + rest == sep + (word + rest);
    ScanBlank(sep, word + rest);
    ScanRun("", word, rest);
    assert "" + word == word;
    ScanEndOfWord(word, rest);
  }

  lemma LayoutAfterSpace(pending: string, s: string, rest: seq<string>, words: seq<string>)
    returns (seps: seq<string>)
    requires NoSpace(pending) && s != "" && IsSpace(s[0])
    requires Separates(rest, words) && Layout(rest, words) == s[1..]
    ensures var all := (if pending == "" then [] else [pending]) + words;
            Separates(seps, all) && Layout(seps, all) == pending + s
    ensures pending != "" ==> seps[0] == ""
  {
    var longer := [[s[0]] + rest[0]] + rest[1..];
    assert longer[1..] == rest[1..];
    assert Layout(longer, words) == [s[0]] + Layout(rest, words) == s;
    if pending == "" {
      seps := longer;
      assert [] + words == words && pending + s == s;
    } else {
      seps := [""] + longer;
      var all := [pending] + words;
      assert seps[1..] == longer && all[1..] == words;
      assert Layout(seps, all) == "" + pending + s;
    }
  }

  /** And every text is such a layout of the words read from it. */
  lemma {:induction false} ScanHasLayout(pending: string, s: string) returns (seps: seq<string>)
    requires NoSpace(pending)
    ensures Separates(seps, Scan(pending, s))
    ensures Layout(seps, Scan(pending, s)) == pending + s
    ensures pending != "" ==> seps[0] == ""
    decreases |s|
  {
    if s == "" {
      if pending == "" {
        seps := [""];
      } else {
        seps := ["", ""];
        assert Layout(["", ""], [pending]) == "" + pending + Layout([""], []);
      }
    } else if IsSpace(s[0]) {
      var rest := ScanHasLayout("", s[1..]);
      assert "" + s[1..] == s[1..];
      seps := LayoutAfterSpace(pending, s, rest, Scan("", s[1..]));
    } else {
      seps := ScanHasLayout(pending + [s[0]], s[1..]);
      assert pending + [s[0]] + s[1..] == pending + s;
    }
  }

  /** The words of a text are exactly its maximal runs of other than white space, in order. */
  lemma WordsAreTheRuns(s: string, words: seq<string>)
    ensures Words(s) == words <==> exists seps :: Separates(seps, words) && Layout(seps, words) == s
  {
    if Words(s) == words {
      var seps := ScanHasLayout("", s);
      assert "" + s == s;
      assert Separates(seps, words) && Layout(seps, words) == s;
    }
    if seps :| Separates(seps, words) && Layout(seps, words) == s {
      WordsOfLayout(seps, words);
    }
  }

  // ---------- joining with single spaces ----------

  function Join(words: seq<string>): string {
    if words == [] then ""
    else if |words| == 1 then words[0]
    else words[0] + " " + Join(words[1..])
  }

  lemma {:induction false} WordsOfJoin(words: seq<string>)
    requires forall i :: 0 <= i < |words| ==> words[i] != "" && NoSpace(words[i])
    ensures Words(Join(words)) == words
  {
    if words != [] {
      var rest := if |words| == 1 then "" else " " + Join(words[1..]);
      assert Join(words) == words[0] + rest;
      ScanRun("", words[0], rest);
      assert "" + words[0] == words[0];
      ScanEndOfWord(words[0], rest);
      if |words| > 1 {
        ScanBlank(" ", Join(words[1..]));
        WordsOfJoin(words[1..]);
      } else {
        assert words == [words[0]];
      }
    }
  }

  lemma {:induction false} TextOfTerminated(s: string, rest: seq<char>)
    requires '\0' !in s
    ensures Text(s + ['\0'] + rest) == s
  {
    if s != "" {
      assert (s + ['\0'] + rest)[1..] == s[1..] + ['\0'] + rest;
      TextOfTerminated(s[1..], rest);
    }
  }

  /** The first NUL of a line is at `n`. */
  ghost predicate TextEnds(line: seq<char>, n: int) {
    0 <= n < |line| && line[n] == '\0' && '\0' !in line[..n]
  }

  /** The text is what stands before the first NUL. */
  lemma TextIsTheStart(line: seq<char>)
    ensures forall n :: TextEnds(line, n) ==> Text(line) == line[..n]
  {
    forall n | TextEnds(line, n)
      ensures Text(line) == line[..n]
    {
      assert line == line[..n] + ['\0'] + line[n + 1..];
      TextOfTerminated(line[..n], line[n + 1..]);
    }
  }

  lemma {:induction false} JoinHasNoNul(words: seq<string>)
    requires forall i :: 0 <= i < |words| ==> '\0' !in words[i]
    ensures '\0' !in Join(words)
  {
    if |words| > 1 {
      JoinHasNoNul(words[1..]);
    }
  }

  /** Words joined by spaces and typed in come back unchanged, whatever follows the NUL. */
  lemma TypedWordsComeBack(words: seq<string>, rest: seq<char>)
    requires forall i :: 0 <= i < |words| ==> IsWord(words[i])
    ensures Words(Text(Join(words) + ['\0'] + rest)) == words
  {
    JoinHasNoNul(words);
    TextOfTerminated(Join(words), rest);
    WordsOfJoin(words);
  }
}
