/** How a reply affirms a goal: the verdict parser of src/goals.rs. */
module Verdicts {
  import opened Common

  const MIN_PROOF_CHARS := 40

  // ---- Text ----

  /** Unicode white space. */
  predicate IsWhitespace(c: char) {
    || '\t' <= c <= '\r' || c == ' ' || c == '\U{85}' || c == '\U{A0}' || c == '\U{1680}'
    || '\U{2000}' <= c <= '\U{200A}' || c == '\U{2028}' || c == '\U{2029}' || c == '\U{202F}'
    || c == '\U{205F}' || c == '\U{3000}'
  }

  function DropFront(s: string, p: char -> bool): string {
    if s == [] || !p(s[0]) then s else DropFront(s[1..], p)
  }

  function DropBack(s: string, p: char -> bool): string {
    if s == [] || !p(s[|s| - 1]) then s else DropBack(s[..|s| - 1], p)
  }

  function TrimWhile(s: string, p: char -> bool): string {
    DropBack(DropFront(s, p), p)
  }

  function Trim(s: string): string {
    TrimWhile(s, IsWhitespace)
  }

  predicate IsStar(c: char) { c == '*' }
  predicate IsTick(c: char) { c == '`' }
  predicate IsClosing(c: char) { c == '.' || c == '!' || c == '*' || c == '`' || c == ' ' }

  function StripPrefix(s: string, prefix: string): Option<string> {
    if prefix <= s then Some(s[|prefix|..]) else None
  }

  function Upper(c: char): char {
    if 'a' <= c <= 'z' then c - 'a' + 'A' else c
  }

  function UpperText(s: string): string {
    if s == [] then [] else [Upper(s[0])] + UpperText(s[1..])
  }

  function FindNewline(s: string): (i: nat)
    ensures i <= |s|
  {
    if s == [] || s[0] == '\n' then 0 else 1 + FindNewline(s[1..])
  }

  function StripReturn(s: string): string {
    if s != [] && s[|s| - 1] == '\r' then s[..|s| - 1] else s
  }

  /** Lines end at `\n` or `\r\n`; a final line break starts no line. */
  function Lines(s: string): seq<string> {
    if s == [] then []
    else
      var i := FindNewline(s);
      if i == |s| then [s] else [StripReturn(s[..i])] + Lines(s[i + 1..])
  }

  predicate NoReturn(s: string) {
    forall i :: 0 <= i < |s| ==> s[i] != '\r'
  }

  /** One line: no line break of either kind. */
  predicate IsLine(s: string) {
    forall i :: 0 <= i < |s| ==> s[i] != '\n' && s[i] != '\r'
  }

  function Join(lines: seq<string>): string {
    if lines == [] then [] else if |lines| == 1 then lines[0] else lines[0] + "\n" + Join(lines[1..])
  }

  function NonBlank(s: string): nat {
    if s == [] then 0 else NonBlank(s[1..]) + if IsWhitespace(s[0]) then 0 else 1
  }

  // ---- Verdicts ----

  /** A line without its surrounding markup. */
  function Bare(line: string): string {
    Trim(TrimWhile(TrimWhile(Trim(line), IsStar), IsTick))
  }

  /** The word after the tag, without markup and closing punctuation. */
  function WordOf(rest: string): string {
    DropBack(Trim(TrimWhile(Trim(rest), IsStar)), IsClosing)
  }

  function Meaning(word: string): Option<bool> {
    if word == "MET" then Some(true) else if word == "UNMEETABLE" then Some(false) else None
  }

  /** `Some(true)` for a `GOAL: MET` line, `Some(false)` for `GOAL: UNMEETABLE`. */
  function Affirmation(line: string): Option<bool> {
    var bare := Bare(line);
    var upper := StripPrefix(bare, "GOAL:");
    var rest := if upper.Some? then upper else StripPrefix(bare, "Goal:");
    if rest.None? then None else Meaning(UpperText(WordOf(rest.value)))
  }

  type Reader = string -> Option<bool>

  /** The last line `affirms` accepts, or -1. */
  function LastAffirmation(lines: seq<string>, affirms: Reader): (i: int)
    ensures -1 <= i < |lines|
    ensures i >= 0 ==> affirms(lines[i]).Some?
  {
    if lines == [] then -1
    else if affirms(lines[|lines| - 1]).Some? then |lines| - 1
    else LastAffirmation(lines[..|lines| - 1], affirms)
  }

  datatype Verdict = Met(proof: string) | Unmeetable(proof: string) | Open

  function ProofText(text: string): string {
    var proof := Trim(text);
    var a, b, c := StripPrefix(proof, "Proof:"), StripPrefix(proof, "**Proof:**"), StripPrefix(proof, "PROOF:");
    Trim(if a.Some? then a.value else if b.Some? then b.value else if c.Some? then c.value else proof)
  }

  /** What the lines say: the last affirmation, and the proof after it. */
  function Judged(lines: seq<string>, affirms: Reader): Verdict {
    var at := LastAffirmation(lines, affirms);
    if at < 0 then Open else
    var proof := ProofText(Join(lines[at + 1..]));
    if NonBlank(proof) < MIN_PROOF_CHARS then Open
    else if affirms(lines[at]).value then Met(proof) else Unmeetable(proof)
  }

  function VerdictOf(reply: string): Verdict {
    Judged(Lines(reply), Affirmation)
  }

  lemma {:induction false} NothingAfterLast(lines: seq<string>, affirms: Reader, j: int)
    requires LastAffirmation(lines, affirms) < j < |lines|
    ensures affirms(lines[j]).None?
  {
    if j < |lines| - 1 {
      NothingAfterLast(lines[..|lines| - 1], affirms, j);
    }
  }

  /** Line `i` gives the verdict: it affirms, and no later line does. */
  ghost predicate Decides(lines: seq<string>, affirms: Reader, i: int, met: bool) {
    && 0 <= i < |lines| && affirms(lines[i]) == Some(met)
    && forall j :: i < j < |lines| ==> affirms(lines[j]).None?
  }

  lemma JudgedCarriesProof(lines: seq<string>, affirms: Reader)
    requires !Judged(lines, affirms).Open?
    ensures NonBlank(Judged(lines, affirms).proof) >= 40
    ensures exists i :: Decides(lines, affirms, i, Judged(lines, affirms).Met?)
  {
    var at := LastAffirmation(lines, affirms);
    forall j | at < j < |lines|
      ensures affirms(lines[j]).None?
    {
      NothingAfterLast(lines, affirms, j);
    }
    assert Decides(lines, affirms, at, Judged(lines, affirms).Met?);
  }

  /** No verdict without evidence: a goal is settled only by an affirming line
      that no later line overrides, with at least forty non-blank characters of proof. */
  lemma VerdictCarriesProof(reply: string)
    requires !VerdictOf(reply).Open?
    ensures NonBlank(VerdictOf(reply).proof) >= 40
    ensures exists i :: Decides(Lines(reply), Affirmation, i, VerdictOf(reply).Met?)
  {
    JudgedCarriesProof(Lines(reply), Affirmation);
  }

  // ---- Text facts ----

  lemma {:induction false} NewlineAt(s: string)
    ensures FindNewline(s) < |s| ==> s[FindNewline(s)] == '\n'
  {
    if s != [] && s[0] != '\n' {
      NewlineAt(s[1..]);
    }
  }

  lemma {:induction false} NoNewline(s: string)
    ensures FindNewline(s) == |s| <==> forall i :: 0 <= i < |s| ==> s[i] != '\n'
  {
    if s != [] && s[0] != '\n' {
      NoNewline(s[1..]);
      assert forall i :: 1 <= i < |s| ==> s[i] == s[1..][i - 1];
    }
  }

  lemma {:induction false} FindNewlineAppend(s: string, t: string)
    ensures FindNewline(s) < |s| ==> FindNewline(s + t) == FindNewline(s)
    ensures FindNewline(s) == |s| ==> FindNewline(s + t) == |s| + FindNewline(t)
  {
    if s == [] {
      assert s + t == t;
    } else {
      assert (s + t)[1..] == s[1..] + t;
      FindNewlineAppend(s[1..], t);
    }
  }

  /** Text that starts after a line break has its own lines. */
  lemma {:induction false} LinesAppend(pre: string, s: string)
    requires pre == [] || pre[|pre| - 1] == '\n'
    ensures Lines(pre + s) == Lines(pre) + Lines(s)
  {
    if pre == [] {
      assert pre + s == s;
    } else {
      var i := FindNewline(pre);
      NoNewline(pre);
      FindNewlineAppend(pre, s);
      var first, rest := pre[..i], pre[i + 1..];
      assert (pre + s)[..i] == first && (pre + s)[i + 1..] == rest + s;
      LinesCons(pre, i);
      LinesCons(pre + s, i);
      LinesAppend(rest, s);
      ConsAppend(StripReturn(first), Lines(rest), Lines(s));
    }
  }

  lemma ConsAppend(first: string, a: seq<string>, b: seq<string>)
    ensures [first] + a + b == [first] + (a + b)
  {
  }

  lemma Insert(a: seq<string>, line: string, b: seq<string>)
    ensures a + ([line] + b) == a + [line] + b
  {
  }

  lemma JoinCons(first: string, lines: seq<string>)
    requires lines != []
    ensures Join([first] + lines) == first + "\n" + Join(lines)
  {
    assert ([first] + lines)[1..] == lines;
  }

  lemma SplitAt(s: string, i: nat)
    requires i < |s| && s[i] == '\n'
    ensures s[..i] + "\n" + s[i + 1..] == s
  {
  }

  lemma LinesCons(s: string, i: nat)
    requires i < |s| && i == FindNewline(s)
    ensures Lines(s) == [StripReturn(s[..i])] + Lines(s[i + 1..])
  {
  }

  /** Without carriage returns and a final line break, joining the lines gives the text back. */
  lemma {:induction false} JoinLines(s: string)
    requires s != [] && s[|s| - 1] != '\n' && NoReturn(s)
    ensures Lines(s) != [] && Join(Lines(s)) == s
    decreases |s|
  {
    var i := FindNewline(s);
    if i < |s| {
      LinesCons(s, i);
      NewlineAt(s);
      SplitAt(s, i);
      var first, rest := s[..i], s[i + 1..];
      assert StripReturn(first) == first;
      JoinLines(rest);
      JoinCons(first, Lines(rest));
    }
  }

  /** A text neither end of which can be trimmed is left alone. */
  lemma TrimKeeps(s: string, p: char -> bool)
    requires s != [] && !p(s[0]) && !p(s[|s| - 1])
    ensures TrimWhile(s, p) == s
  {
  }

  lemma {:induction false} DropFrontBlank(blank: string, s: string, p: char -> bool)
    requires forall i :: 0 <= i < |blank| ==> p(blank[i])
    requires s != [] && !p(s[0])
    ensures DropFront(blank + s, p) == s
  {
    if blank == [] {
      assert blank + s == s;
    } else {
      assert (blank + s)[1..] == blank[1..] + s;
      DropFrontBlank(blank[1..], s, p);
    }
  }

  /** Trimming never removes a first character that stays out of the trimmed set. */
  lemma {:induction false} DropBackKeepsFront(s: string, p: char -> bool)
    requires s != [] && !p(s[0])
    ensures DropBack(s, p) != [] && DropBack(s, p)[0] == s[0]
  {
    if p(s[|s| - 1]) {
      DropBackKeepsFront(s[..|s| - 1], p);
    }
  }

  lemma TrimKeepsFront(s: string, p: char -> bool)
    requires s != [] && !p(s[0])
    ensures TrimWhile(s, p) != [] && TrimWhile(s, p)[0] == s[0]
  {
    DropBackKeepsFront(s, p);
  }

  lemma {:induction false} DropBackPrefix(s: string, p: char -> bool, i: nat)
    requires i < |s| && !p(s[i])
    ensures i < |DropBack(s, p)| <= |s| && DropBack(s, p) == s[..|DropBack(s, p)|]
  {
    if p(s[|s| - 1]) {
      DropBackPrefix(s[..|s| - 1], p, i);
    }
  }

  /** A line that opens with `P`, in bold or not, affirms nothing. */
  lemma ProofLineIsNoAffirmation(line: string)
    requires "P" <= line || "**P" <= line
    ensures Affirmation(line).None?
  {
    var n := if "P" <= line then 0 else 2;
    DropBackPrefix(line, IsWhitespace, n);
    var trimmed := Trim(line);
    assert trimmed == line[..|trimmed|];
    if n == 2 {
      assert trimmed[0] == '*' && trimmed[1] == '*' && trimmed[2] == 'P';
      DropFrontBlank(trimmed[..2], trimmed[2..], IsStar);
      assert trimmed[..2] + trimmed[2..] == trimmed;
    }
    DropBackKeepsFront(trimmed[n..], IsStar);
    TrimKeepsFront(TrimWhile(trimmed, IsStar), IsTick);
    TrimKeepsFront(TrimWhile(TrimWhile(trimmed, IsStar), IsTick), IsWhitespace);
    assert Bare(line)[0] == 'P';
  }

  // ---- A reply that affirms ----

  predicate NoneAffirms(lines: seq<string>, affirms: Reader) {
    forall i :: 0 <= i < |lines| ==> affirms(lines[i]).None?
  }

  /** Already trimmed, and no carriage return. */
  predicate IsTrimmed(proof: string) {
    proof != [] && !IsWhitespace(proof[0]) && !IsWhitespace(proof[|proof| - 1]) && NoReturn(proof)
  }

  predicate IsGap(gap: string) {
    forall i :: 0 <= i < |gap| ==> IsWhitespace(gap[i]) && gap[i] != '\r'
  }

  predicate IsLabel(title: string) {
    title == "Proof:" || title == "**Proof:**" || title == "PROOF:"
  }

  /** The proof has one of the labels the parser takes off, or none at all. */
  predicate Titles(title: string, proof: string) {
    IsLabel(title)
    || (title == [] && !("Proof:" <= proof) && !("**Proof:**" <= proof) && !("PROOF:" <= proof))
  }

  /** The label comes off the front. */
  lemma StripLabel(title: string, rest: string)
    requires IsLabel(title)
    ensures var s := title + rest;
            var a, b, c := StripPrefix(s, "Proof:"), StripPrefix(s, "**Proof:**"), StripPrefix(s, "PROOF:");
            (if a.Some? then a.value else if b.Some? then b.value else if c.Some? then c.value else s) == rest
  {
    var s := title + rest;
    assert s[..|title|] == title && s[|title|..] == rest;
    assert s[0] == title[0] && s[1] == title[1];
  }

  lemma ProofTextExact(title: string, gap: string, proof: string)
    requires Titles(title, proof) && IsGap(gap) && IsTrimmed(proof)
    ensures ProofText(title + gap + proof) == proof
  {
    TrimBlank(gap, proof);
    Regroup(title, gap, proof);
    if title == [] {
      assert title + (gap + proof) == gap + proof;
      TrimKeeps(proof, IsWhitespace);
    } else {
      TrimLabelled(title, gap + proof);
      StripLabel(title, gap + proof);
    }
  }

  lemma TrimBlank(gap: string, proof: string)
    requires IsGap(gap) && IsTrimmed(proof)
    ensures Trim(gap + proof) == proof && gap + proof != [] && !IsWhitespace((gap + proof)[|gap + proof| - 1])
  {
    DropFrontBlank(gap, proof, IsWhitespace);
    TrimKeeps(proof, IsWhitespace);
  }

  lemma TrimLabelled(title: string, rest: string)
    requires IsLabel(title) && rest != [] && !IsWhitespace(rest[|rest| - 1])
    ensures Trim(title + rest) == title + rest
  {
    TrimKeeps(title + rest, IsWhitespace);
  }

  lemma {:induction false} LastAffirmationAt(before: seq<string>, header: string, after: seq<string>, affirms: Reader)
    requires affirms(header).Some? && NoneAffirms(after, affirms)
    ensures LastAffirmation(before + [header] + after, affirms) == |before|
  {
    var lines := before + [header] + after;
    if after == [] {
      assert lines[|lines| - 1] == header;
    } else {
      assert lines[..|lines| - 1] == before + [header] + after[..|after| - 1];
      assert lines[|lines| - 1] == after[|after| - 1];
      LastAffirmationAt(before, header, after[..|after| - 1], affirms);
    }
  }

  lemma NoReturnJoin(a: string, b: string)
    requires NoReturn(a) && NoReturn(b)
    ensures NoReturn(a + b)
  {
  }

  lemma TailHasNoReturn(title: string, gap: string, proof: string)
    requires Titles(title, proof) && IsGap(gap) && IsTrimmed(proof)
    ensures var tail := title + gap + proof; tail != [] && NoReturn(tail) && tail[|tail| - 1] != '\n'
  {
    NoReturnJoin(title, gap);
    NoReturnJoin(title + gap, proof);
    var tail := title + gap + proof;
    assert tail[|tail| - 1] == proof[|proof| - 1];
  }

  lemma HeaderLine(header: string)
    requires header != [] && IsLine(header)
    ensures Lines(header + "\n") == [header]
  {
    var s := header + "\n";
    NoNewline(header);
    FindNewlineAppend(header, "\n");
    assert s[..|header|] == header && s[|header| + 1..] == [];
    assert header[|header| - 1] != '\r';
  }

  lemma ReplyLines(pre: string, header: string, tail: string)
    requires pre == [] || pre[|pre| - 1] == '\n'
    requires header != [] && IsLine(header)
    ensures Lines(pre + (header + "\n" + tail)) == Lines(pre) + [header] + Lines(tail)
  {
    LinesAppend(pre, header + "\n" + tail);
    HeaderLine(header);
    LinesAppend(header + "\n", tail);
    Insert(Lines(pre), header, Lines(tail));
  }

  /** The verdict an affirming line and this proof give: none below forty
      non-blank characters. */
  function Given(met: bool, proof: string): Verdict {
    if NonBlank(proof) < 40 then Open else if met then Met(proof) else Unmeetable(proof)
  }

  lemma JudgedTail(before: seq<string>, header: string, title: string, gap: string, proof: string, affirms: Reader)
    requires affirms(header).Some? && Titles(title, proof) && IsGap(gap) && IsTrimmed(proof)
    requires NoneAffirms(Lines(title + gap + proof), affirms)
    ensures Judged(before + [header] + Lines(title + gap + proof), affirms) == Given(affirms(header).value, proof)
  {
    var tail := title + gap + proof;
    var after := Lines(tail);
    var lines := before + [header] + after;
    LastAffirmationAt(before, header, after, affirms);
    assert lines[|before|] == header && lines[|before| + 1..] == after;
    TailHasNoReturn(title, gap, proof);
    JoinLines(tail);
    ProofTextExact(title, gap, proof);
  }

  /** Whatever precedes it, a reply that ends with an affirming line, a label the
      parser knows or none, and a proof none of whose lines affirms gets that
      verdict with exactly that proof, or stays open if the proof is too short. */
  lemma AffirmedWithProof(pre: string, header: string, title: string, gap: string, proof: string)
    requires pre == [] || pre[|pre| - 1] == '\n'
    requires header != [] && IsLine(header) && Affirmation(header).Some?
    requires Titles(title, proof) && IsGap(gap) && IsTrimmed(proof)
    requires NoneAffirms(Lines(title + gap + proof), Affirmation)
    ensures VerdictOf(pre + (header + "\n" + (title + gap + proof))) == Given(Affirmation(header).value, proof)
  {
    ReplyLines(pre, header, title + gap + proof);
    JudgedTail(Lines(pre), header, title, gap, proof, Affirmation);
  }

  lemma NoneCons(first: string, rest: seq<string>, affirms: Reader)
    ensures NoneAffirms([first] + rest, affirms) <==> affirms(first).None? && NoneAffirms(rest, affirms)
  {
    var lines := [first] + rest;
    assert lines[0] == first;
    assert forall k :: 0 <= k < |rest| ==> rest[k] == lines[k + 1];
    assert forall k :: 1 <= k < |lines| ==> lines[k] == rest[k - 1];
  }

  function FirstLine(s: string): string {
    var i := FindNewline(s);
    if i == |s| then s else StripReturn(s[..i])
  }

  lemma FirstLineOpens(title: string, proof: string)
    requires title != [] && IsLine(title)
    ensures title <= FirstLine(title + proof)
  {
    var s := title + proof;
    NoNewline(title);
    FindNewlineAppend(title, proof);
    var line := s[..FindNewline(s)];
    assert line[..|title|] == title;
    assert line[|title| - 1] != '\r';
  }

  lemma LabelledSplit(title: string, proof: string, i: nat)
    requires IsLine(title) && i < |proof| && i == FindNewline(proof)
    ensures Lines(title + proof) == [FirstLine(title + proof)] + Lines(proof[i + 1..])
  {
    var s := title + proof;
    NoNewline(title);
    FindNewlineAppend(title, proof);
    LinesCons(s, |title| + i);
    assert s[|title| + i + 1..] == proof[i + 1..];
  }

  /** A label before the proof can only change its first line. */
  lemma LabelledLines(title: string, proof: string, affirms: Reader)
    requires title != [] && IsLine(title) && affirms(FirstLine(title + proof)).None?
    requires proof != [] && NoneAffirms(Lines(proof), affirms)
    ensures NoneAffirms(Lines(title + proof), affirms)
  {
    var i := FindNewline(proof);
    if i < |proof| {
      LinesCons(proof, i);
      NoneCons(StripReturn(proof[..i]), Lines(proof[i + 1..]), affirms);
      LabelledSplit(title, proof, i);
      NoneCons(FirstLine(title + proof), Lines(proof[i + 1..]), affirms);
    } else {
      NoNewline(title);
      FindNewlineAppend(title, proof);
      assert Lines(title + proof) == [FirstLine(title + proof)];
    }
  }

  lemma {:induction false} UpperKeeps(s: string)
    requires forall i :: 0 <= i < |s| ==> 'A' <= s[i] <= 'Z'
    ensures UpperText(s) == s
  {
    if s != [] {
      UpperKeeps(s[1..]);
    }
  }

  lemma BareKeeps(line: string)
    requires line != [] && line[0] == 'G' && 'A' <= line[|line| - 1] <= 'Z'
    ensures Bare(line) == line
  {
    TrimKeeps(line, IsWhitespace);
    TrimKeeps(line, IsStar);
    TrimKeeps(line, IsTick);
  }

  lemma WordKeeps(word: string)
    requires word != [] && forall i :: 0 <= i < |word| ==> 'A' <= word[i] <= 'Z'
    ensures WordOf(" " + word) == word
  {
    DropFrontBlank(" ", word, IsWhitespace);
    TrimKeeps(word, IsWhitespace);
    TrimKeeps(word, IsStar);
    assert 'A' <= word[|word| - 1] <= 'Z';
  }

  function Header(word: string): string {
    "GOAL: " + word
  }

  lemma GoalLine(word: string)
    requires word != [] && forall i :: 0 <= i < |word| ==> 'A' <= word[i] <= 'Z'
    ensures Affirmation(Header(word)) == Meaning(word)
  {
    var line := Header(word);
    assert line[|line| - 1] == word[|word| - 1];
    BareKeeps(line);
    assert "GOAL:" <= line && line[5..] == " " + word;
    WordKeeps(word);
    UpperKeeps(word);
  }

  predicate IsWord(word: string) {
    word != [] && forall i :: 0 <= i < |word| ==> 'A' <= word[i] <= 'Z'
  }

  lemma HeaderIsLine(word: string)
    requires IsWord(word)
    ensures Header(word) != [] && IsLine(Header(word))
  {
    var line := Header(word);
    forall i | 0 <= i < |line|
      ensures line[i] != '\n' && line[i] != '\r'
    {
      if i < 6 {
        assert line[i] == "GOAL: "[i];
      } else {
        assert line[i] == word[i - 6];
      }
    }
  }

  lemma LabelledProof(title: string, proof: string)
    requires IsLabel(title) && proof != [] && NoneAffirms(Lines(proof), Affirmation)
    ensures NoneAffirms(Lines(title + proof), Affirmation)
  {
    FirstLineOpens(title, proof);
    ProofLineIsNoAffirmation(FirstLine(title + proof));
    LabelledLines(title, proof, Affirmation);
  }

  /** White space before a line changes nothing about what it affirms. */
  lemma IndentAffirmsSame(c: char, line: string)
    requires IsWhitespace(c)
    ensures Affirmation([c] + line) == Affirmation(line)
  {
    assert ([c] + line)[1..] == line;
  }

  lemma FirstLineIndented(c: char, s: string)
    requires c != '\n' && c != '\r' && s != [] && NoReturn(s)
    ensures FirstLine([c] + s) == [c] + FirstLine(s) && Lines(s) != [] && Lines(s)[0] == FirstLine(s)
  {
    var i := FindNewline(s);
    assert ([c] + s)[1..] == s;
    assert ([c] + s)[..i + 1] == [c] + s[..i];
    assert StripReturn(s[..i]) == s[..i];
    var indented := [c] + s[..i];
    assert StripReturn(indented) == indented by {
      assert forall k :: 1 <= k < |indented| ==> indented[k] == s[k - 1];
    }
    if i < |s| {
      LinesCons(s, i);
    }
  }

  lemma BlankLineFirst(s: string)
    requires NoneAffirms(Lines(s), Affirmation)
    ensures NoneAffirms(Lines("\n" + s), Affirmation)
  {
    var t := "\n" + s;
    LinesCons(t, 0);
    assert t[..0] == [] && t[1..] == s;
    NoneCons([], Lines(s), Affirmation);
  }

  /** White space before the proof, line breaks included, affirms nothing. */
  lemma {:induction false} GapAffirmsNothing(gap: string, proof: string)
    requires IsGap(gap) && proof != [] && NoReturn(proof) && NoneAffirms(Lines(proof), Affirmation)
    ensures NoReturn(gap + proof) && NoneAffirms(Lines(gap + proof), Affirmation)
  {
    if gap == [] {
      assert gap + proof == proof;
    } else {
      var c, s := gap[0], gap[1..] + proof;
      assert gap + proof == [c] + s;
      GapAffirmsNothing(gap[1..], proof);
      if c == '\n' {
        BlankLineFirst(s);
      } else {
        FirstLineIndented(c, s);
        IndentAffirmsSame(c, FirstLine(s));
        LabelledLines([c], s, Affirmation);
      }
    }
  }

  lemma ProofFollows(title: string, gap: string, proof: string)
    requires Titles(title, proof) && IsGap(gap) && IsTrimmed(proof) && NoneAffirms(Lines(proof), Affirmation)
    ensures NoneAffirms(Lines(title + gap + proof), Affirmation)
  {
    GapAffirmsNothing(gap, proof);
    Regroup(title, gap, proof);
    if title == [] {
      assert title + (gap + proof) == gap + proof;
    } else {
      LabelledProof(title, gap + proof);
    }
  }

  lemma Regroup(a: string, b: string, c: string)
    ensures a + (b + c) == a + b + c
  {
  }

  lemma AffirmedByWord(pre: string, word: string, title: string, gap: string, proof: string)
    requires pre == [] || pre[|pre| - 1] == '\n'
    requires IsWord(word) && Meaning(word).Some?
    requires Titles(title, proof) && IsGap(gap) && IsTrimmed(proof) && NoneAffirms(Lines(proof), Affirmation)
    ensures VerdictOf(pre + (Header(word) + "\n" + (title + gap + proof))) == Given(Meaning(word).value, proof)
  {
    HeaderIsLine(word);
    GoalLine(word);
    ProofFollows(title, gap, proof);
    AffirmedWithProof(pre, Header(word), title, gap, proof);
  }

  lemma Words()
    ensures IsWord("MET") && Meaning("MET") == Some(true)
    ensures IsWord("UNMEETABLE") && Meaning("UNMEETABLE") == Some(false)
  {
  }

  /** A reply in the terms the router asks for. */
  function Reply(pre: string, word: string, title: string, gap: string, proof: string): string {
    pre + ("GOAL: " + word + "\n" + (title + gap + proof))
  }

  /** The terms the router asks for: whatever precedes it, a final `GOAL: MET`
      or `GOAL: UNMEETABLE` line with a proof, labelled or not, of at least forty
      non-blank characters gives exactly that; a shorter proof gives nothing. */
  lemma AffirmedAsAsked(pre: string, title: string, gap: string, proof: string)
    requires pre == [] || pre[|pre| - 1] == '\n'
    requires Titles(title, proof) && IsGap(gap) && IsTrimmed(proof) && NoneAffirms(Lines(proof), Affirmation)
    ensures VerdictOf(Reply(pre, "MET", title, gap, proof)) == if NonBlank(proof) < 40 then Open else Met(proof)
    ensures VerdictOf(Reply(pre, "UNMEETABLE", title, gap, proof))
            == if NonBlank(proof) < 40 then Open else Unmeetable(proof)
  {
    Words();
    AffirmedByWord(pre, "MET", title, gap, proof);
    AffirmedByWord(pre, "UNMEETABLE", title, gap, proof);
  }

  lemma {:induction false} NonBlankSnoc(s: string, c: char)
    ensures NonBlank(s + [c]) == NonBlank(s) + if IsWhitespace(c) then 0 else 1
  {
    if s != [] {
      assert (s + [c])[1..] == s[1..] + [c];
      NonBlankSnoc(s[1..], c);
    }
  }

  /** Non-blank characters are counted by position. */
  lemma {:induction false} NonBlankCounts(s: string)
    ensures NonBlank(s) == |set i | 0 <= i < |s| && !IsWhitespace(s[i])|
  {
    if s != [] {
      var init, c := s[..|s| - 1], s[|s| - 1];
      NonBlankCounts(init);
      NonBlankSnoc(init, c);
      assert init + [c] == s;
      var before := set i | 0 <= i < |init| && !IsWhitespace(init[i]);
      var last := if IsWhitespace(c) then {} else {|init|};
      assert (set i | 0 <= i < |s| && !IsWhitespace(s[i])) == before + last;
    }
  }

  /** Both line endings end a line. */
  lemma LineEndings(line: string, s: string)
    requires IsLine(line)
    ensures Lines(line + "\n" + s) == [line] + Lines(s)
    ensures Lines(line + "\r\n" + s) == [line] + Lines(s)
  {
    NoNewline(line);
    var a, b := line + "\n" + s, line + "\r\n" + s;
    assert a == line + ("\n" + s) && b == (line + "\r") + ("\n" + s);
    FindNewlineAppend(line, "\n" + s);
    NoNewline(line + "\r");
    FindNewlineAppend(line + "\r", "\n" + s);
    LinesCons(a, |line|);
    LinesCons(b, |line| + 1);
    assert a[..|line|] == line && a[|line| + 1..] == s;
    assert b[..|line| + 1] == line + "\r" && b[|line| + 2..] == s;
    assert line != [] ==> line[|line| - 1] != '\r';
    assert (line + "\r")[..|line|] == line;
  }

  // ---- Which lines affirm ----

  predicate AllIn(s: string, p: char -> bool) {
    forall i :: 0 <= i < |s| ==> p(s[i])
  }

  /** Trimming takes off matching characters at both ends, and all of them. */
  lemma {:induction false} DropFrontSplit(s: string, p: char -> bool) returns (a: string)
    ensures s == a + DropFront(s, p) && AllIn(a, p)
    ensures DropFront(s, p) != [] ==> !p(DropFront(s, p)[0])
  {
    if s == [] || !p(s[0]) {
      a := [];
    } else {
      var rest := DropFrontSplit(s[1..], p);
      a := [s[0]] + rest;
      Regroup([s[0]], rest, DropFront(s[1..], p));
    }
  }

  lemma {:induction false} DropBackSplit(s: string, p: char -> bool) returns (b: string)
    ensures s == DropBack(s, p) + b && AllIn(b, p)
    ensures DropBack(s, p) != [] ==> !p(DropBack(s, p)[|DropBack(s, p)| - 1])
  {
    if s == [] || !p(s[|s| - 1]) {
      b := [];
    } else {
      var rest := DropBackSplit(s[..|s| - 1], p);
      b := rest + [s[|s| - 1]];
      Regroup(DropBack(s[..|s| - 1], p), rest, [s[|s| - 1]]);
    }
  }

  lemma TrimSplit(s: string, p: char -> bool) returns (a: string, b: string)
    ensures s == a + TrimWhile(s, p) + b && AllIn(a, p) && AllIn(b, p)
  {
    a := DropFrontSplit(s, p);
    b := DropBackSplit(DropFront(s, p), p);
  }

  lemma {:induction false} BlankIsEmpty(s: string)
    ensures NonBlank(s) == 0 <==> AllIn(s, IsWhitespace)
  {
    if s != [] {
      BlankIsEmpty(s[1..]);
      assert AllIn(s, IsWhitespace) <==> IsWhitespace(s[0]) && AllIn(s[1..], IsWhitespace) by {
        assert forall i :: 1 <= i < |s| ==> s[i] == s[1..][i - 1];
        assert forall i :: 0 <= i < |s| - 1 ==> s[1..][i] == s[i + 1];
      }
    }
  }

  /** Text trims to nothing exactly when it is blank. */
  lemma TrimsToNothing(s: string)
    ensures Trim(s) == [] <==> NonBlank(s) == 0
  {
    BlankIsEmpty(s);
    var a, b := TrimSplit(s, IsWhitespace);
    var front := DropFrontSplit(s, IsWhitespace);
    if Trim(s) != [] {
      var kept := DropFront(s, IsWhitespace);
      if kept != [] {
        assert s[|front|] == kept[0];
      }
    } else {
      assert s == a + b;
    }
  }

  lemma {:induction false} DropBackBlank(s: string, blank: string, p: char -> bool)
    requires AllIn(blank, p) && s != [] && !p(s[|s| - 1])
    ensures DropBack(s + blank, p) == s
  {
    if blank == [] {
      assert s + blank == s;
    } else {
      assert (s + blank)[..|s + blank| - 1] == s + blank[..|blank| - 1];
      DropBackBlank(s, blank[..|blank| - 1], p);
    }
  }

  lemma TrimWrapped(a: string, s: string, b: string, p: char -> bool)
    requires AllIn(a, p) && AllIn(b, p) && s != [] && !p(s[0]) && !p(s[|s| - 1])
    ensures TrimWhile(a + s + b, p) == s
  {
    assert a + s + b == a + (s + b);
    DropFrontBlank(a, s + b, p);
    DropBackBlank(s, b, p);
  }

  predicate IsMark(c: char) { IsWhitespace(c) || c == '*' || c == '`' }
  predicate IsEnd(c: char) { IsMark(c) || c == '.' || c == '!' }
  predicate IsAsciiLetter(c: char) { 'a' <= c <= 'z' || 'A' <= c <= 'Z' }

  predicate IsGoalLabel(tag: string) {
    tag == "GOAL:" || tag == "Goal:"
  }

  /** Stars or ticks, as Markdown wraps a line in them. */
  predicate Wraps(d1: string, d2: string) {
    (AllIn(d1, IsStar) && AllIn(d2, IsStar)) || (AllIn(d1, IsTick) && AllIn(d2, IsTick))
  }

  lemma BareWrapped(w1: string, d1: string, core: string, d2: string, w2: string)
    requires AllIn(w1, IsWhitespace) && AllIn(w2, IsWhitespace) && Wraps(d1, d2)
    requires core != [] && !IsMark(core[0]) && !IsMark(core[|core| - 1])
    ensures Bare(w1 + (d1 + core + d2) + w2) == core
  {
    var wrapped := d1 + core + d2;
    TrimWrapped(w1, wrapped, w2, IsWhitespace);
    if AllIn(d1, IsStar) && AllIn(d2, IsStar) {
      TrimWrapped(d1, core, d2, IsStar);
      TrimKeeps(core, IsTick);
    } else {
      TrimKeeps(wrapped, IsStar);
      TrimWrapped(d1, core, d2, IsTick);
    }
    TrimKeeps(core, IsWhitespace);
  }

  lemma {:induction false} UpperAt(s: string)
    ensures |UpperText(s)| == |s| && forall i :: 0 <= i < |s| ==> UpperText(s)[i] == Upper(s[i])
  {
    if s != [] {
      UpperAt(s[1..]);
    }
  }

  /** `said` is `word`, in capitals, in either case. */
  predicate Spells(said: string, word: string) {
    |said| == |word|
    && forall i :: 0 <= i < |word| ==> said[i] == word[i] || said[i] as int == word[i] as int + 32
  }

  lemma SpellsUpper(said: string, word: string)
    requires IsWord(word)
    ensures Spells(said, word) <==> UpperText(said) == word
    ensures Spells(said, word) ==> AllIn(said, IsAsciiLetter)
  {
    UpperAt(said);
  }

  predicate IsStop(c: char) { c == '.' || c == '!' }

  lemma WordOfMarked(gap: string, stars: string, word: string, stops: string)
    requires AllIn(gap, IsWhitespace) && AllIn(stars, IsStar) && AllIn(stops, IsStop)
    requires word != [] && AllIn(word, IsAsciiLetter)
    ensures WordOf(gap + (stars + (word + stops))) == word
  {
    var ended := word + stops;
    var marked := stars + ended;
    assert ended[0] == word[0] && (stops == [] ==> ended == word);
    assert ended[|ended| - 1] == if stops == [] then word[|word| - 1] else stops[|stops| - 1];
    assert marked[|marked| - 1] == ended[|ended| - 1];
    assert gap + marked + [] == gap + marked && stars + ended + [] == marked;
    TrimWrapped(gap, marked, [], IsWhitespace);
    TrimWrapped(stars, ended, [], IsStar);
    TrimKeeps(ended, IsWhitespace);
    DropBackBlank(word, stops, IsClosing);
  }

  /** The lines agents write: either tag, any case of the word, stars around
      the word, a full stop or exclamation marks behind it, the whole in bold or
      in code, with any white space around. */
  lemma MarkedUpAffirms(w1: string, d1: string, tag: string, gap: string, stars: string, word: string,
                        stops: string, d2: string, w2: string, met: bool)
    requires AllIn(w1, IsWhitespace) && AllIn(w2, IsWhitespace) && Wraps(d1, d2) && IsGoalLabel(tag)
    requires AllIn(gap, IsWhitespace) && AllIn(stars, IsStar) && AllIn(stops, IsStop)
    requires Spells(word, if met then "MET" else "UNMEETABLE")
    ensures Affirmation(w1 + (d1 + (tag + (gap + (stars + (word + stops)))) + d2) + w2) == Some(met)
  {
    Words();
    SpellsUpper(word, if met then "MET" else "UNMEETABLE");
    MarkedWord(w1, d1, tag, gap, stars, word, stops, d2, w2);
  }

  /** The label comes off a bare line. */
  lemma BareLine(line: string, tag: string, rest: string)
    requires IsGoalLabel(tag) && Bare(line) == tag + rest
    ensures Affirmation(line) == Meaning(UpperText(WordOf(rest)))
  {
    var core := tag + rest;
    assert core[..5] == tag && core[5..] == rest && core[1] == tag[1];
  }

  lemma MarkedWord(w1: string, d1: string, tag: string, gap: string, stars: string, word: string,
                   stops: string, d2: string, w2: string)
    requires AllIn(w1, IsWhitespace) && AllIn(w2, IsWhitespace) && Wraps(d1, d2) && IsGoalLabel(tag)
    requires AllIn(gap, IsWhitespace) && AllIn(stars, IsStar) && AllIn(stops, IsStop)
    requires word != [] && AllIn(word, IsAsciiLetter)
    ensures Affirmation(w1 + (d1 + (tag + (gap + (stars + (word + stops)))) + d2) + w2) == Meaning(UpperText(word))
  {
    var rest := gap + (stars + (word + stops));
    var core := tag + rest;
    assert rest[|rest| - 1] == (word + stops)[|word + stops| - 1];
    assert core[0] == 'G' && core[1] == tag[1] && core[|core| - 1] == rest[|rest| - 1];
    BareWrapped(w1, d1, core, d2, w2);
    BareLine(w1 + (d1 + core + d2) + w2, tag, rest);
    WordOfMarked(gap, stars, word, stops);
  }

  lemma Nested(a1: string, a2: string, s: string, b2: string, b1: string)
    ensures a1 + (a2 + s + b2) + b1 == (a1 + a2) + s + (b2 + b1)
  {
  }

  /** Taking more off both ends: what comes off joins what came off before. */
  lemma Unwrap(front: string, mid: string, back: string, p: char -> bool, q: char -> bool)
    returns (front': string, back': string)
    requires AllIn(front, q) && AllIn(back, q) && forall c :: p(c) ==> q(c)
    ensures front + mid + back == front' + TrimWhile(mid, p) + back'
    ensures AllIn(front', q) && AllIn(back', q)
  {
    var a, b := TrimSplit(mid, p);
    front', back' := front + a, b + back;
    Nested(front, a, TrimWhile(mid, p), b, back);
  }

  /** A line without its marks, and the marks. */
  lemma BareSplit(line: string) returns (front: string, back: string)
    ensures line == front + Bare(line) + back && AllIn(front, IsMark) && AllIn(back, IsMark)
  {
    front, back := [], [];
    assert front + line + back == line;
    front, back := Unwrap(front, line, back, IsWhitespace, IsMark);
    front, back := Unwrap(front, Trim(line), back, IsStar, IsMark);
    front, back := Unwrap(front, TrimWhile(Trim(line), IsStar), back, IsTick, IsMark);
    front, back := Unwrap(front, TrimWhile(TrimWhile(Trim(line), IsStar), IsTick), back, IsWhitespace, IsMark);
  }

  predicate IsBlankOrStar(c: char) { IsWhitespace(c) || c == '*' }

  lemma WordSplit(rest: string) returns (mid: string, back: string)
    ensures rest == mid + WordOf(rest) + back && AllIn(mid, IsBlankOrStar) && AllIn(back, IsEnd)
  {
    mid, back := [], [];
    assert mid + rest + back == rest;
    mid, back := Unwrap(mid, rest, back, IsWhitespace, IsBlankOrStar);
    mid, back := Unwrap(mid, Trim(rest), back, IsStar, IsBlankOrStar);
    mid, back := Unwrap(mid, TrimWhile(Trim(rest), IsStar), back, IsWhitespace, IsBlankOrStar);
    var stops := DropBackSplit(Trim(TrimWhile(Trim(rest), IsStar)), IsClosing);
    MoveBack(mid, WordOf(rest), stops, back);
    AllInJoin(stops, back, IsEnd);
    back := stops + back;
  }

  lemma MoveBack(a: string, s: string, b2: string, b1: string)
    ensures a + (s + b2) + b1 == a + s + (b2 + b1)
  {
  }

  lemma AllInJoin(a: string, b: string, p: char -> bool)
    requires AllIn(a, p) && AllIn(b, p)
    ensures AllIn(a + b, p)
  {
  }

  lemma Assemble(front: string, tag: string, mid: string, said: string, b2: string, b1: string)
    ensures front + (tag + (mid + said + b2)) + b1 == front + (tag + (mid + said + (b2 + b1)))
  {
    Regroup(mid + said, b2, b1);
    Regroup(tag, mid + said + b2, b1);
    Regroup(front, tag + (mid + said + b2), b1);
  }

  /** `line` is one of the labels and the word `word`, in any case, with nothing
      but marks before them, blanks and stars between, and marks and stops behind. */
  predicate SaysOnly(line: string, front: string, tag: string, mid: string, said: string, back: string,
                     word: string)
  {
    && line == front + (tag + (mid + said + back))
    && AllIn(front, IsMark) && IsGoalLabel(tag) && AllIn(mid, IsBlankOrStar) && AllIn(back, IsEnd)
    && Spells(said, word)
  }

  /** Only such lines affirm: a line that quotes the terms, or says anything
      else, affirms nothing. */
  lemma AffirmsOnly(line: string) returns (front: string, tag: string, mid: string, said: string, back: string)
    requires Affirmation(line).Some?
    ensures SaysOnly(line, front, tag, mid, said, back, if Affirmation(line).value then "MET" else "UNMEETABLE")
  {
    var bare, b1, b2 := Bare(line), "", "";
    front, b1 := BareSplit(line);
    tag := if "GOAL:" <= bare then "GOAL:" else "Goal:";
    assert bare == tag + bare[5..];
    mid, b2 := WordSplit(bare[5..]);
    said := WordOf(bare[5..]);
    back := b2 + b1;
    Words();
    SpellsUpper(said, if Affirmation(line).value then "MET" else "UNMEETABLE");
    Assemble(front, tag, mid, said, b2, b1);
    AllInJoin(b2, b1, IsEnd);
  }
}
