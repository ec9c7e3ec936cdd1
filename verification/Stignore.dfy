/** The transformation of `.stignore` files (cmd/up/stignore.go), by line and by file. */
module Stignore {
  import opened Lists
  import opened Options

  const MARK := "(?d)"

  /** White space as Go's `unicode.IsSpace` has it. */
  predicate IsSpace(c: char) {
    || '\t' <= c <= '\r' || c == ' ' || c == '\U{85}' || c == '\U{A0}' || c == '\U{1680}'
    || '\U{2000}' <= c <= '\U{200A}' || c == '\U{2028}' || c == '\U{2029}' || c == '\U{202F}'
    || c == '\U{205F}' || c == '\U{3000}'
  }

  lemma SpaceCodes(c: char)
    ensures IsSpace(c) <==>
      || c as int in {9, 10, 11, 12, 13, 32, 0x85, 0xA0, 0x1680, 0x2028, 0x2029, 0x202F, 0x205F, 0x3000}
      || 0x2000 <= c as int <= 0x200A
  {
  }

  predicate Trimmed(s: string) {
    s == [] || (!IsSpace(s[0]) && !IsSpace(s[|s| - 1]))
  }

  function TrimLeft(s: string): string {
    if s != [] && IsSpace(s[0]) then TrimLeft(s[1..]) else s
  }

  function TrimRight(s: string): string {
    if s != [] && IsSpace(s[|s| - 1]) then TrimRight(s[..|s| - 1]) else s
  }

  function TrimSpace(s: string): string {
    TrimRight(TrimLeft(s))
  }

  lemma {:induction false} TrimLeftFacts(s: string)
    ensures |TrimLeft(s)| <= |s| && TrimLeft(s) == s[|s| - |TrimLeft(s)|..]
    ensures TrimLeft(s) != [] ==> !IsSpace(TrimLeft(s)[0])
  {
    if s != [] && IsSpace(s[0]) {
      TrimLeftFacts(s[1..]);
    }
  }

  lemma {:induction false} TrimRightFacts(s: string)
    ensures TrimRight(s) <= s
    ensures TrimRight(s) != [] ==> !IsSpace(TrimRight(s)[|TrimRight(s)| - 1])
  {
    if s != [] && IsSpace(s[|s| - 1]) {
      TrimRightFacts(s[..|s| - 1]);
    }
  }

  /** What is cut off is white space. */
  lemma {:induction false} TrimLeftCuts(s: string, i: nat)
    requires i < |s| - |TrimLeft(s)|
    ensures IsSpace(s[i])
  {
    if i > 0 {
      TrimLeftCuts(s[1..], i - 1);
    }
  }

  lemma {:induction false} TrimRightCuts(s: string, i: nat)
    requires |TrimRight(s)| <= i < |s|
    ensures IsSpace(s[i])
  {
    if i < |s| - 1 {
      TrimRightCuts(s[..|s| - 1], i);
    }
  }

  /** Trimming trims, only removes, and leaves a trimmed line alone. */
  lemma TrimFacts(s: string)
    ensures Trimmed(TrimSpace(s)) && |TrimSpace(s)| <= |s|
    ensures Trimmed(s) ==> TrimSpace(s) == s
    ensures forall x :: x in TrimSpace(s) ==> x in s
  {
    TrimLeftFacts(s);
    TrimRightFacts(TrimLeft(s));
    var l := TrimLeft(s);
    assert forall x :: x in l ==> x in s;
  }

  /** `t` is the middle of `s`, from `i` to `j`, with white space only on both sides of it and none at its ends. */
  ghost predicate MiddleOf(s: string, i: int, j: int, t: string) {
    && 0 <= i <= j <= |s| && t == s[i..j] && Trimmed(t)
    && (forall k :: 0 <= k < i ==> IsSpace(s[k])) && (forall k :: j <= k < |s| ==> IsSpace(s[k]))
  }

  /** Only white space is removed. */
  lemma TrimIsMiddle(s: string) returns (i: int, j: int)
    ensures MiddleOf(s, i, j, TrimSpace(s))
  {
    var l := TrimLeft(s);
    TrimLeftFacts(s);
    TrimRightFacts(l);
    TrimFacts(s);
    i, j := |s| - |l|, |s| - |l| + |TrimSpace(s)|;
    assert TrimSpace(s) == l[..|TrimSpace(s)|] == s[i..j];
    forall k | 0 <= k < i ensures IsSpace(s[k]) {
      TrimLeftCuts(s, k);
    }
    forall k | j <= k < |s| ensures IsSpace(s[k]) {
      TrimRightCuts(l, k - i);
      assert s[k] == l[k - i];
    }
  }

  /** The middle is unique, so this says what trimming does. */
  lemma MiddleUnique(s: string, i: int, j: int, t: string)
    requires MiddleOf(s, i, j, t)
    ensures t == TrimSpace(s)
  {
    var i', j' := TrimIsMiddle(s);
    if t != [] {
      assert s[i] == t[0] && s[j - 1] == t[|t| - 1];
    }
    if TrimSpace(s) != [] {
      assert s[i'] == TrimSpace(s)[0] && s[j' - 1] == TrimSpace(s)[|TrimSpace(s)| - 1];
    }
  }

  predicate Contains(s: string, sub: string) {
    sub <= s || (s != [] && Contains(s[1..], sub))
  }

  lemma {:induction false} ContainsIff(s: string, sub: string)
    ensures Contains(s, sub) <==> exists i :: 0 <= i <= |s| && sub <= s[i..]
  {
    assert s[0..] == s;
    if s == [] {
      assert forall i :: 0 <= i <= |s| ==> s[i..] == s;
    } else {
      ContainsIff(s[1..], sub);
      if i :| 0 <= i <= |s| && sub <= s[i..] {
        if i > 0 {
          assert s[1..][i - 1..] == s[i..];
        }
      }
      if i :| 0 <= i <= |s| - 1 && sub <= s[1..][i..] {
        assert s[1..][i..] == s[i + 1..];
      }
    }
  }

  predicate Skipped(t: string) {
    t == "" || "//" <= t || "#" <= t
  }

  predicate Marked(t: string) {
    "!" <= t || Contains(t, MARK)
  }

  /** One line: dropped, kept, or kept with the mark in front. */
  function TransformLine(line: string): Option<string> {
    var t := TrimSpace(line);
    if Skipped(t) then None
    else if Marked(t) then Some(t)
    else Some(MARK + t)
  }

  /** What every emitted line looks like. */
  ghost predicate Emitted(l: string) {
    Trimmed(l) && l != "" && !("//" <= l) && !("#" <= l) && ("!" <= l || Contains(l, MARK))
  }

  lemma TransformEmits(line: string)
    ensures TransformLine(line).Some? ==> Emitted(TransformLine(line).value)
    ensures TransformLine(line).Some? ==>
      (|TransformLine(line).value| > |TrimSpace(line)| <==> !Marked(TrimSpace(line)))
  {
    var t := TrimSpace(line);
    TrimFacts(line);
    if !Skipped(t) && !Marked(t) {
      var l := MARK + t;
      assert l[0] == '(' && l[|l| - 1] == t[|t| - 1];
    }
  }

  /** What becomes of a line whose middle is `t`: dropped if there is nothing or a comment, kept if it is an exception or
      has the mark already, marked otherwise. */
  lemma LineIff(line: string, i: int, j: int, t: string)
    requires MiddleOf(line, i, j, t)
    ensures TransformLine(line) == None <==> t == "" || t[0] == '#' || (|t| > 1 && t[..2] == "//")
    ensures TransformLine(line) == None || TransformLine(line) == Some(t) || TransformLine(line) == Some("(?d)" + t)
    ensures TransformLine(line) == Some(t) <==>
      TransformLine(line).Some? && (t[0] == '!' || exists k :: 0 <= k <= |t| && "(?d)" <= t[k..])
  {
    MiddleUnique(line, i, j, t);
    ContainsIff(t, "(?d)");
    assert |"(?d)" + t| == 4 + |t|;
  }

  lemma EmittedIsFixed(l: string)
    requires Emitted(l)
    ensures TransformLine(l) == Some(l)
  {
    TrimFacts(l);
  }

  function TransformAll(lines: seq<string>): seq<string> {
    FilterMap(TransformLine, lines)
  }

  /** The transformation of a list is the list of the transformations, in order. */
  lemma TransformConcat(a: seq<string>, b: seq<string>)
    ensures TransformAll(a + b) == TransformAll(a) + TransformAll(b)
  {
    FilterMapConcat(TransformLine, a, b);
  }

  lemma AllEmitted(lines: seq<string>, i: nat)
    requires i < |TransformAll(lines)|
    ensures Emitted(TransformAll(lines)[i])
  {
    var k := FilterMapSource(TransformLine, lines, i);
    TransformEmits(lines[k]);
  }

  /** On lines the transformation is idempotent. */
  lemma Idempotent(lines: seq<string>)
    ensures TransformAll(TransformAll(lines)) == TransformAll(lines)
  {
    var out := TransformAll(lines);
    forall i | 0 <= i < |out| ensures TransformLine(out[i]) == Some(out[i]) {
      AllEmitted(lines, i);
      EmittedIsFixed(out[i]);
    }
    FilterMapFixed(TransformLine, out);
  }

  // ----- files -----

  /** A line reader hands out at most this many bytes at once; the rest of a longer line comes as if it
      were a line of its own. */
  const BUFFER := 4096

  function NewlineAt(c: string): (n: nat)
    ensures n <= |c| && '\n' !in c[..n] && (n < |c| ==> c[n] == '\n')
  {
    if c == [] || c[0] == '\n' then 0 else 1 + NewlineAt(c[1..])
  }

  /** The first thing the reader hands out, and how much of the input it uses up. */
  function ReadLine(c: string): (r: (string, nat))
    requires c != []
    ensures 0 < r.1 <= |c| && |r.0| <= BUFFER && |r.0| <= r.1 && r.0 == c[..|r.0|] && '\n' !in r.0
  {
    var n := NewlineAt(c);
    if n < BUFFER then
      if n < |c| then (if n > 0 && c[n - 1] == '\r' then (c[..n - 1], n + 1) else (c[..n], n + 1)) else (c, n)
    else if c[BUFFER - 1] == '\r' then (c[..BUFFER - 1], BUFFER - 1)
    else (c[..BUFFER], BUFFER)
  }

  function ReadLines(c: string): seq<string> {
    if c == [] then [] else [ReadLine(c).0] + ReadLines(c[ReadLine(c).1..])
  }

  /** The written file: every emitted line and a newline. */
  function Join(lines: seq<string>): string {
    if lines == [] then "" else lines[0] + "\n" + Join(lines[1..])
  }

  /** What the transformation makes of a file. */
  ghost function Written(c: string): string {
    Join(TransformAll(ReadLines(c)))
  }

  lemma TransformStep(c: string, line: string, rest: string)
    requires c != [] && ReadLine(c).0 == line && c[ReadLine(c).1..] == rest
    ensures ReadLines(c) == [line] + ReadLines(rest)
    ensures TransformAll(ReadLines(c)) ==
      Kept(TransformLine(line)) + TransformAll(ReadLines(rest))
  {
  }

  /** `lines` and what is still to be read make up the result. */
  ghost predicate Progress(content: string, lines: seq<string>, rest: string) {
    TransformAll(ReadLines(content)) == lines + TransformAll(ReadLines(rest))
  }

  lemma ProgressNext(content: string, lines: seq<string>, rest: string, line: string, rest': string)
    requires Progress(content, lines, rest)
    requires rest != [] && ReadLine(rest).0 == line && rest[ReadLine(rest).1..] == rest'
    ensures Progress(content, lines + Kept(TransformLine(line)), rest')
  {
    TransformStep(rest, line, rest');
    Associative(lines, Kept(TransformLine(line)), TransformAll(ReadLines(rest')));
  }

  lemma Associative<T>(a: seq<T>, b: seq<T>, c: seq<T>)
    ensures a + (b + c) == (a + b) + c
  {
  }

  /** The loop over one file: reads, transforms, writes. */
  method TransformFile(content: string) returns (written: string)
    ensures written == Written(content)
  {
    written := "";
    ghost var lines: seq<string> := [];
    var rest := content;
    while rest != []
      invariant written == Join(lines) && Progress(content, lines, rest)
      decreases |rest|
    {
      var (line, used) := ReadLine(rest);
      ProgressNext(content, lines, rest, line, rest[used..]);
      rest := rest[used..];
      var kept := Transform(line);
      JoinKept(lines, kept);
      lines := lines + Kept(kept);
      if kept.Some? {
        written := written + kept.value + "\n";
      }
    }
    assert lines + [] == lines;
  }

  lemma JoinKept(lines: seq<string>, kept: Option<string>)
    ensures Join(lines + Kept(kept)) == if kept.Some? then Join(lines) + kept.value + "\n" else Join(lines)
  {
    if kept.Some? {
      JoinSnoc(lines, kept.value);
    } else {
      assert lines + [] == lines;
    }
  }

  /** The body of the loop for one line. What it emits is well formed and not changed a second time. */
  method Transform(bytes: string) returns (r: Option<string>)
    ensures r == TransformLine(bytes)
    ensures r.Some? ==> Emitted(r.value) && TransformLine(r.value) == r
    ensures r.None? <==> Skipped(TrimSpace(bytes))
    ensures exists i, j, t :: MiddleOf(bytes, i, j, t) && (r == None || r == Some(t) || r == Some("(?d)" + t))
  {
    TransformEmits(bytes);
    ghost var i, j := TrimIsMiddle(bytes);
    if TransformLine(bytes).Some? {
      EmittedIsFixed(TransformLine(bytes).value);
    }
    var line := TrimSpace(bytes);
    if line == "" || "//" <= line || "#" <= line {
      return None;
    }
    if !("!" <= line) && !Contains(line, MARK) {
      line := MARK + line;
    }
    r := Some(line);
  }

  lemma {:induction false} JoinSnoc(lines: seq<string>, l: string)
    ensures Join(lines + [l]) == Join(lines) + l + "\n"
  {
    if lines == [] {
      assert [l][1..] == [];
    } else {
      assert (lines + [l])[1..] == lines[1..] + [l];
      JoinSnoc(lines[1..], l);
    }
  }

  /** Lines without newlines are determined by the file they make. */
  lemma {:induction false} JoinInjective(a: seq<string>, b: seq<string>)
    requires forall i :: 0 <= i < |a| ==> '\n' !in a[i]
    requires forall i :: 0 <= i < |b| ==> '\n' !in b[i]
    requires Join(a) == Join(b)
    ensures a == b
  {
    if a != [] && b != [] {
      NewlineAfter(a[0], Join(a[1..]));
      NewlineAfter(b[0], Join(b[1..]));
      var text, n := Join(a), |a[0]|;
      assert text[..n] == a[0] && text[..n] == b[0];
      assert text[n + 1..] == Join(a[1..]) && text[n + 1..] == Join(b[1..]);
      JoinInjective(a[1..], b[1..]);
      assert a == [a[0]] + a[1..] && b == [b[0]] + b[1..];
    }
  }

  /** An emitted line that fits the buffer is handed out as itself; one that just fits leaves its
      newline behind, which is read as an empty line. */
  lemma ReadBackLine(l: string, rest: string)
    requires Emitted(l) && '\n' !in l && |l| <= BUFFER
    ensures var c := l + "\n" + rest;
      ReadLine(c) == (l, if |l| < BUFFER then |l| + 1 else |l|)
  {
    var c := l + "\n" + rest;
    NewlineAfter(l, rest);
    assert c[|l| - 1] == l[|l| - 1] && !IsSpace(l[|l| - 1]) && IsSpace('\r');
    assert c[..|l|] == l;
  }

  lemma ReadEmptyLine(rest: string)
    ensures TransformAll(ReadLines("\n" + rest)) == TransformAll(ReadLines(rest))
  {
    var c := "\n" + rest;
    assert c[1..] == rest;
    TransformStep(c, "", rest);
  }

  lemma ReadBack(l: string, rest: string)
    requires Emitted(l) && '\n' !in l && |l| <= BUFFER
    ensures TransformAll(ReadLines(l + "\n" + rest)) == [l] + TransformAll(ReadLines(rest))
  {
    var c := l + "\n" + rest;
    ReadBackLine(l, rest);
    EmittedIsFixed(l);
    if |l| < BUFFER {
      assert c[|l| + 1..] == rest;
      TransformStep(c, l, rest);
    } else {
      assert c[|l|..] == "\n" + rest;
      TransformStep(c, l, "\n" + rest);
      ReadEmptyLine(rest);
    }
  }

  lemma NewlineAfter(l: string, rest: string)
    requires '\n' !in l
    ensures NewlineAt(l + "\n" + rest) == |l|
  {
    var c := l + "\n" + rest;
    assert c[|l|] == '\n' && c[..|l|] == l;
  }

  /** An emitted line with the mark in front that does not fit is cut, and does not come back. */
  lemma CutLineIsLost(l: string, rest: string)
    requires Emitted(l) && '\n' !in l && |l| > BUFFER && MARK <= l
    ensures var again := TransformAll(ReadLines(l + "\n" + rest)); again != [] && again[0] != l
  {
    var c := l + "\n" + rest;
    NewlineAfter(l, rest);
    var (chunk, used) := ReadLine(c);
    assert BUFFER - 1 <= |chunk| <= BUFFER && chunk == l[..|chunk|];
    assert MARK <= chunk && chunk[0] == '(';
    var t := TrimSpace(chunk);
    TrimFacts(chunk);
    assert TrimLeft(chunk) == chunk;
    KeepsMark(chunk);
    assert TransformLine(chunk) == Some(t);
    TransformStep(c, chunk, c[used..]);
  }

  lemma {:induction false} KeepsMark(s: string)
    requires MARK <= s
    ensures MARK <= TrimRight(s)
    decreases |s|
  {
    if IsSpace(s[|s| - 1]) {
      assert |s| > |MARK| by {
        assert s[..4] == MARK;
        assert s[3] == ')';
      }
      KeepsMark(s[..|s| - 1]);
    }
  }

  /** What the lines emitted for a file look like: each fits the buffer or got its mark from us. */
  ghost predicate FromFile(l: string) {
    Emitted(l) && '\n' !in l && (|l| > BUFFER ==> MARK <= l)
  }

  lemma {:induction false} ChunkIsShort(c: string, k: nat)
    requires k < |ReadLines(c)|
    ensures |ReadLines(c)[k]| <= BUFFER && '\n' !in ReadLines(c)[k]
    decreases |c|
  {
    if k > 0 {
      ChunkIsShort(c[ReadLine(c).1..], k - 1);
    }
  }

  lemma FileEmits(c: string, i: nat)
    requires i < |TransformAll(ReadLines(c))|
    ensures FromFile(TransformAll(ReadLines(c))[i])
  {
    var k := FilterMapSource(TransformLine, ReadLines(c), i);
    ChunkIsShort(c, k);
    TransformEmits(ReadLines(c)[k]);
    TrimFacts(ReadLines(c)[k]);
  }

  ghost predicate Fits(lines: seq<string>) {
    forall i :: 0 <= i < |lines| ==> |lines[i]| <= BUFFER
  }

  /** Reading the lines back gives them again exactly when all of them fit the buffer. */
  lemma {:induction false} ReadBackAll(lines: seq<string>)
    requires forall i :: 0 <= i < |lines| ==> FromFile(lines[i])
    ensures TransformAll(ReadLines(Join(lines))) == lines <==> Fits(lines)
  {
    if lines != [] {
      var l, rest := lines[0], lines[1..];
      assert FromFile(l);
      if |l| <= BUFFER {
        ReadBack(l, Join(rest));
        ReadBackAll(rest);
        SameHead(l, rest, TransformAll(ReadLines(Join(rest))));
      } else {
        CutLineIsLost(l, Join(rest));
      }
    }
  }

  lemma SameHead(l: string, rest: seq<string>, again: seq<string>)
    ensures [l] + again == [l] + rest <==> again == rest
    ensures |l| <= BUFFER ==> (Fits([l] + rest) <==> Fits(rest))
  {
    assert ([l] + again)[1..] == again && ([l] + rest)[1..] == rest;
    var all := [l] + rest;
    assert forall i :: 0 <= i < |rest| ==> all[i + 1] == rest[i];
  }

  /** A chunk of the file that is kept, gets the mark, and outgrows the buffer by it. */
  ghost predicate Overlong(chunk: string) {
    var t := TrimSpace(chunk);
    !Skipped(t) && !Marked(t) && |t| > BUFFER - |MARK|
  }

  lemma OverlongLine(chunk: string)
    requires |chunk| <= BUFFER
    ensures Overlong(chunk) <==> TransformLine(chunk).Some? && |TransformLine(chunk).value| > BUFFER
  {
    TrimFacts(chunk);
  }

  /** Some emitted line outgrows the buffer exactly when some chunk is overlong. */
  lemma OverlongEmits(c: string)
    ensures (exists k :: 0 <= k < |ReadLines(c)| && Overlong(ReadLines(c)[k])) <==>
            (exists i :: 0 <= i < |TransformAll(ReadLines(c))| && |TransformAll(ReadLines(c))[i]| > BUFFER)
  {
    var chunks := ReadLines(c);
    var lines := TransformAll(chunks);
    if k :| 0 <= k < |chunks| && Overlong(chunks[k]) {
      ChunkIsShort(c, k);
      OverlongLine(chunks[k]);
      var i := FilterMapTarget(TransformLine, chunks, k);
      assert |lines[i]| > BUFFER;
    }
    if i :| 0 <= i < |lines| && |lines[i]| > BUFFER {
      var k := FilterMapSource(TransformLine, chunks, i);
      ChunkIsShort(c, k);
      OverlongLine(chunks[k]);
    }
  }

  /** Writing a file twice changes nothing exactly when the lines do not change. */
  lemma SameTextSameLines(c: string)
    ensures Written(Written(c)) == Written(c) <==> TransformAll(ReadLines(Written(c))) == TransformAll(ReadLines(c))
  {
    var again, lines := TransformAll(ReadLines(Written(c))), TransformAll(ReadLines(c));
    forall i | 0 <= i < |lines| ensures '\n' !in lines[i] {
      FileEmits(c, i);
    }
    forall i | 0 <= i < |again| ensures '\n' !in again[i] {
      FileEmits(Written(c), i);
    }
    if Join(again) == Join(lines) {
      JoinInjective(again, lines);
    }
  }

  /** On files the transformation is idempotent exactly when no chunk outgrows the read buffer. */
  lemma FileIdempotentIffShort(c: string)
    ensures Written(Written(c)) == Written(c) <==> !exists k :: 0 <= k < |ReadLines(c)| && Overlong(ReadLines(c)[k])
  {
    var lines := TransformAll(ReadLines(c));
    SameTextSameLines(c);
    forall i | 0 <= i < |lines| ensures FromFile(lines[i]) {
      FileEmits(c, i);
    }
    ReadBackAll(lines);
    OverlongEmits(c);
  }

  // ----- files of ordinary lines -----

  /** A line that is shorter than the buffer is read whole, without its line ending. */
  lemma ReadsLine(l: string, rest: string)
    requires '\n' !in l && |l| < 4095 && (l != [] ==> l[|l| - 1] != '\r')
    ensures ReadLine(l + "\n" + rest) == (l, |l| + 1)
    ensures ReadLine(l + "\r\n" + rest) == (l, |l| + 2)
  {
    NewlineAfter(l, rest);
    assert (l + "\n" + rest)[..|l|] == l;
    assert |l| > 0 ==> (l + "\n" + rest)[|l| - 1] == l[|l| - 1];
    var c := l + "\r\n" + rest;
    assert c == (l + "\r") + "\n" + rest;
    NewlineAfter(l + "\r", rest);
    assert c[|l|] == '\r' && c[..|l|] == l;
  }

  /** A line that fills the buffer is cut there, and what follows is read as if it were a line of its own. */
  lemma CutsLine(c: string)
    requires |c| >= 4096 && '\n' !in c[..4096]
    ensures c[4095] != '\r' ==> ReadLines(c) == [c[..4096]] + ReadLines(c[4096..])
    ensures c[4095] == '\r' ==> ReadLines(c) == [c[..4095]] + ReadLines(c[4095..])
  {
  }

  /** The last line may lack its newline. */
  lemma LastLine(l: string)
    requires l != [] && '\n' !in l && |l| < 4096
    ensures ReadLines(l) == [l]
  {
    ReadWhole(l);
  }

  /** A file is transformed line by line: what is written for its first line stands before what is written for the rest. */
  lemma WrittenLineByLine(l: string, rest: string)
    requires '\n' !in l && |l| < 4095 && (l != [] ==> l[|l| - 1] != '\r')
    ensures TransformLine(l).None? ==> Written(l + "\n" + rest) == Written(rest)
    ensures TransformLine(l).Some? ==> Written(l + "\n" + rest) == TransformLine(l).value + "\n" + Written(rest)
    ensures Written(l + "\r\n" + rest) == Written(l + "\n" + rest)
  {
    ReadsLine(l, rest);
    var c, c' := l + "\n" + rest, l + "\r\n" + rest;
    assert c[|l| + 1..] == rest && c'[|l| + 2..] == rest;
    TransformStep(c, l, rest);
    TransformStep(c', l, rest);
    var lines := TransformAll(ReadLines(rest));
    if TransformLine(l).Some? {
      var x := TransformLine(l).value;
      assert ([x] + lines)[1..] == lines;
    } else {
      assert [] + lines == lines;
    }
  }

  lemma EmptyFile()
    ensures Written("") == ""
  {
  }

  /** A pattern keeps its text, however it is indented, and gets the mark. */
  lemma IndentedPattern(indent: string, pattern: string, rest: string)
    requires (forall c :: c in indent ==> c == ' ' || c == '\t') && |indent| + |pattern| < 4095
    requires pattern != "" && Trimmed(pattern) && pattern[0] !in "!#/" && '(' !in pattern && '\n' !in pattern
    ensures Written(indent + pattern + "\n" + rest) == "(?d)" + pattern + "\n" + Written(rest)
  {
    var l := indent + pattern;
    assert l[|indent|..|l|] == pattern;
    assert forall k :: 0 <= k < |indent| ==> l[k] == indent[k] && indent[k] in indent;
    assert l[|l| - 1] == pattern[|pattern| - 1] && !IsSpace(pattern[|pattern| - 1]) && IsSpace('\r');
    MiddleUnique(l, |indent|, |l|, pattern);
    NoMark(pattern);
    WrittenLineByLine(l, rest);
  }

  // ----- the smallest file that is not stable -----

  lemma {:induction false} NoMark(s: string)
    requires '(' !in s
    ensures !Contains(s, MARK)
  {
    assert MARK[0] == '(';
    if s != [] {
      NoMark(s[1..]);
    }
  }

  /** One long line without white space, skip characters or newline: it is read whole. */
  lemma ReadWhole(c: string)
    requires 0 < |c| < BUFFER && '\n' !in c
    ensures ReadLines(c) == [c]
  {
    assert c[|c|..] == [];
    assert NewlineAt(c) == |c|;
    assert ReadLines([]) == [];
  }

  /** A line of letters is cut in the second transformation exactly if it leaves no room for the mark. */
  lemma LongLineIsUnstable(n: nat)
    requires 0 < n < 4096
    ensures var c := seq(n, i => 'a'); Written(Written(c)) == Written(c) <==> n <= 4092
  {
    var c := seq(n, i => 'a');
    assert c[0] == 'a' && c[n - 1] == 'a' && Trimmed(c);
    TrimFacts(c);
    NoMark(c);
    ReadWhole(c);
    assert Overlong(c) <==> n > BUFFER - |MARK|;
    assert ReadLines(c)[0] == c;
    FileIdempotentIffShort(c);
  }
}
