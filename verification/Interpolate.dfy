/** `interpolate` of src/config.rs: `$name` and `${name}` references in text. */
module Interpolate {
  import opened Common

  type Lookup = string -> Option<string>

  predicate Letter(c: char) {
    'a' <= c <= 'z' || 'A' <= c <= 'Z' || c == '_'
  }

  predicate WordChar(c: char) {
    Letter(c) || '0' <= c <= '9'
  }

  function FindChar(s: string, c: char): (i: nat)
    ensures i <= |s| && (i < |s| ==> s[i] == c) && forall j :: 0 <= j < i ==> s[j] != c
  {
    if s == [] || s[0] == c then 0 else 1 + FindChar(s[1..], c)
  }

  /** How many characters of `s` continue an identifier. */
  function WordLength(s: string): (n: nat)
    ensures n <= |s|
  {
    if s == [] || !WordChar(s[0]) then 0 else 1 + WordLength(s[1..])
  }

  /** The length of the identifier `s` starts with, if any. */
  function IdentLength(s: string): (n: nat)
    ensures n <= |s|
  {
    if s == [] || !Letter(s[0]) then 0 else 1 + WordLength(s[1..])
  }

  // ---- Reading text as tokens ----

  /** What the text at the front of `s` is. */
  datatype Token =
    | Literal                     // one ordinary character
    | Escape                      // `$$`
    | Dollar                      // a `$` that starts nothing
    | Unclosed                    // `${` without a `}`: the rest is copied
    | Reference(name: string, length: nat, braced: bool)

  function First(s: string): (t: Token)
    requires s != []
    ensures t.Reference? ==> 2 <= t.length <= |s|
    ensures t.Escape? ==> |s| >= 2
  {
    if s[0] != '$' then Literal
    else if |s| >= 2 && s[1] == '$' then Escape
    else if |s| >= 2 && s[1] == '{' then
      var end := FindChar(s[2..], '}');
      if end == |s| - 2 then Unclosed else Reference(s[2..2 + end], end + 3, true)
    else if IdentLength(s[1..]) == 0 then Dollar
    else Reference(s[1..1 + IdentLength(s[1..])], 1 + IdentLength(s[1..]), false)
  }

  function Width(s: string): (n: nat)
    requires s != []
    ensures 1 <= n <= |s|
  {
    match First(s)
    case Literal => 1
    case Escape => 2
    case Dollar => 1
    case Unclosed => |s|
    case Reference(_, length, _) => length
  }

  /** What that front becomes: a known reference its value, anything else itself. */
  function Expansion(s: string, lookup: Lookup): string
    requires s != []
  {
    var t := First(s);
    if t.Reference? && lookup(t.name).Some? then lookup(t.name).value else s[..Width(s)]
  }

  function Interpolated(s: string, lookup: Lookup): string {
    if s == [] then [] else Expansion(s, lookup) + Interpolated(s[Width(s)..], lookup)
  }

  // ---- A lookup that knows nothing ----

  /** With nothing to insert, every text is left as it is. */
  lemma {:induction false} UnknownLeavesTextAlone(s: string, lookup: Lookup)
    requires forall name :: lookup(name).None?
    ensures Interpolated(s, lookup) == s
  {
    if s != [] {
      UnknownLeavesTextAlone(s[Width(s)..], lookup);
      assert s[..Width(s)] + s[Width(s)..] == s;
    }
  }

  // ---- What is a reference ----

  /** A shell identifier: an ASCII letter or `_`, then letters, digits and `_`. */
  predicate IsIdentifier(name: string) {
    && name != [] && IsNameChar(name[0]) && !('0' <= name[0] <= '9')
    && forall i :: 0 <= i < |name| ==> IsNameChar(name[i])
  }

  predicate IsNameChar(c: char) {
    'a' <= c <= 'z' || 'A' <= c <= 'Z' || '0' <= c <= '9' || c == '_'
  }

  /** What a reference to `name`, written as `text`, becomes. */
  function ValueOr(lookup: Lookup, name: string, text: string): string {
    if lookup(name).Some? then lookup(name).value else text
  }

  lemma {:induction false} NameLength(name: string, rest: string)
    requires forall i :: 0 <= i < |name| ==> IsNameChar(name[i])
    requires rest == [] || !IsNameChar(rest[0])
    ensures WordLength(name + rest) == |name|
  {
    if name == [] {
      assert name + rest == rest;
    } else {
      assert (name + rest)[1..] == name[1..] + rest;
      NameLength(name[1..], rest);
    }
  }

  lemma BareToken(name: string, rest: string)
    requires IsIdentifier(name) && (rest == [] || !IsNameChar(rest[0]))
    ensures First("$" + name + rest) == Reference(name, 1 + |name|, false)
  {
    var s := "$" + name + rest;
    assert s[1..] == name + rest && (name + rest)[1..] == name[1..] + rest;
    NameLength(name[1..], rest);
    assert IdentLength(s[1..]) == |name|;
    assert s[1] == name[0] && s[1..1 + |name|] == name;
  }

  /** `$name` is replaced up to the end of the identifier. */
  lemma BareReference(name: string, rest: string, lookup: Lookup)
    requires IsIdentifier(name) && (rest == [] || !IsNameChar(rest[0]))
    ensures Interpolated("$" + name + rest, lookup) == ValueOr(lookup, name, "$" + name) + Interpolated(rest, lookup)
  {
    var s := "$" + name + rest;
    BareToken(name, rest);
    assert s[..1 + |name|] == "$" + name && s[1 + |name|..] == rest;
  }

  lemma {:induction false} FindClosing(name: string, rest: string)
    requires '}' !in name
    ensures FindChar(name + "}" + rest, '}') == |name|
  {
    var s := name + "}" + rest;
    if name != [] {
      assert s[0] == name[0] && s[1..] == name[1..] + "}" + rest;
      FindClosing(name[1..], rest);
    }
  }

  /** `${name}` is replaced whatever follows. */
  lemma BracedReference(name: string, rest: string, lookup: Lookup)
    requires '}' !in name
    ensures Interpolated("${" + name + "}" + rest, lookup)
            == ValueOr(lookup, name, "${" + name + "}") + Interpolated(rest, lookup)
  {
    var s := "${" + name + "}" + rest;
    assert s[2..] == name + "}" + rest;
    FindClosing(name, rest);
    assert s[2..2 + |name|] == name;
    assert First(s) == Reference(name, |name| + 3, true);
    assert s[..|name| + 3] == "${" + name + "}" && s[|name| + 3..] == rest;
  }

  /** What is no reference stays: an escape, */
  lemma EscapeStays(rest: string, lookup: Lookup)
    ensures Interpolated("$$" + rest, lookup) == "$$" + Interpolated(rest, lookup)
  {
    assert ("$$" + rest)[2..] == rest && ("$$" + rest)[..2] == "$$";
  }

  /** a `$` before anything that starts no name, a digit included, */
  lemma DollarStays(rest: string, lookup: Lookup)
    requires rest == [] || '0' <= rest[0] <= '9' || (!IsNameChar(rest[0]) && rest[0] != '$' && rest[0] != '{')
    ensures Interpolated("$" + rest, lookup) == "$" + Interpolated(rest, lookup)
  {
    var s := "$" + rest;
    assert s[1..] == rest && s[..1] == "$";
    assert First(s).Dollar?;
  }

  /** and everything from an unclosed brace on. */
  lemma UnclosedStays(rest: string, lookup: Lookup)
    requires '}' !in rest
    ensures Interpolated("${" + rest, lookup) == "${" + rest
  {
    var s := "${" + rest;
    assert s[2..] == rest && FindChar(rest, '}') == |rest|;
    assert First(s).Unclosed?;
    assert s[..|s|] == s && s[|s|..] == [];
  }

  // ---- Two passes are one ----

  function Combined(first: Lookup, second: Lookup): Lookup {
    name => if first(name).Some? then first(name) else second(name)
  }

  predicate Known(s: string, lookup: Lookup) {
    s != [] && First(s).Reference? && lookup(First(s).name).Some?
  }

  /** The front of `s` is a bare reference the first pass leaves standing, and
      what the first pass makes of the text behind it continues its name. */
  predicate Swallows(s: string, first: Lookup)
    requires s != []
  {
    var after := Interpolated(s[Width(s)..], first);
    First(s).Reference? && !First(s).braced && !Known(s, first) && after != [] && WordChar(after[0])
  }

  /** No reference anywhere in `s` swallows text. */
  predicate Separated(s: string, first: Lookup) {
    s == [] || (!Swallows(s, first) && Separated(s[Width(s)..], first))
  }

  predicate AllBraced(s: string) {
    s == [] || ((First(s).Reference? ==> First(s).braced) && AllBraced(s[Width(s)..]))
  }

  lemma {:induction false} BracedIsSeparated(s: string, lookup: Lookup)
    requires AllBraced(s)
    ensures Separated(s, lookup)
  {
    if s != [] {
      BracedIsSeparated(s[Width(s)..], lookup);
    }
  }

  lemma LiteralStep(c: char, s: string, lookup: Lookup)
    requires c != '$'
    ensures Interpolated([c] + s, lookup) == [c] + Interpolated(s, lookup)
  {
    assert ([c] + s)[..1] == [c] && ([c] + s)[1..] == s;
  }

  lemma Shift(c: char, v: string, t: string)
    ensures [c] + v + t == [c] + (v + t)
  {
  }

  /** Text without `$` is copied. */
  lemma {:induction false} PlainText(v: string, t: string, lookup: Lookup)
    requires forall i :: 0 <= i < |v| ==> v[i] != '$'
    ensures Interpolated(v + t, lookup) == v + Interpolated(t, lookup)
  {
    if v == [] {
      assert v + t == t;
    } else {
      var c, w := v[0], v[1..];
      assert v == [c] + w;
      PlainText(w, t, lookup);
      calc {
        Interpolated(v + t, lookup);
        { Shift(c, w, t); }
        Interpolated([c] + (w + t), lookup);
        { LiteralStep(c, w + t, lookup); }
        [c] + Interpolated(w + t, lookup);
        [c] + (w + Interpolated(t, lookup));
        { Shift(c, w, Interpolated(t, lookup)); }
        v + Interpolated(t, lookup);
      }
    }
  }

  lemma {:induction false} FindCharAppend(s: string, t: string, c: char)
    ensures FindChar(s, c) < |s| ==> FindChar(s + t, c) == FindChar(s, c)
    ensures FindChar(s, c) == |s| ==> FindChar(s + t, c) == |s| + FindChar(t, c)
  {
    if s == [] {
      assert s + t == t;
    } else {
      assert (s + t)[1..] == s[1..] + t;
      FindCharAppend(s[1..], t, c);
    }
  }

  lemma {:induction false} WordLengthAppend(w: string, t: string)
    requires WordLength(w) == |w|
    ensures WordLength(w + t) == |w| + WordLength(t)
  {
    if w == [] {
      assert w + t == t;
    } else {
      assert (w + t)[1..] == w[1..] + t;
      WordLengthAppend(w[1..], t);
    }
  }

  lemma {:induction false} WordLengthTake(s: string)
    ensures WordLength(s[..WordLength(s)]) == WordLength(s)
    ensures WordLength(s) < |s| ==> !WordChar(s[WordLength(s)])
  {
    if s != [] && WordChar(s[0]) {
      WordLengthTake(s[1..]);
      assert s[..WordLength(s)][1..] == s[1..][..WordLength(s[1..])];
    }
  }

  /** `t` may follow the token at the front of `s` without changing it. */
  predicate Follows(s: string, t: string)
    requires s != []
  {
    match First(s)
    case Dollar => t == [] || (t[0] != '$' && t[0] != '{' && !Letter(t[0]))
    case Reference(_, _, braced) => braced || t == [] || !WordChar(t[0])
    case Unclosed => t == []
    case _ => true
  }

  lemma BracedStable(s: string, t: string)
    requires s != [] && First(s).Reference? && First(s).braced
    ensures First(s[..Width(s)] + t) == First(s)
  {
    var n := Width(s);
    var s' := s[..n] + t;
    var body := s[2..n];
    assert s'[2..] == body + t && s[2..] == body + s[n..];
    FindCharAppend(body, t, '}');
    FindCharAppend(body, s[n..], '}');
    assert s'[2..n - 1] == s[2..n - 1];
  }

  lemma IdentTake(s: string)
    requires IdentLength(s) > 0
    ensures var head := s[..IdentLength(s)]; Letter(head[0]) && WordLength(head[1..]) == |head| - 1
    ensures IdentLength(s) < |s| ==> !WordChar(s[IdentLength(s)])
  {
    WordLengthTake(s[1..]);
    assert s[..IdentLength(s)][1..] == s[1..][..WordLength(s[1..])];
  }

  lemma IdentAppend(head: string, t: string)
    requires head != [] && Letter(head[0]) && WordLength(head[1..]) == |head| - 1 && (t == [] || !WordChar(t[0]))
    ensures IdentLength(head + t) == |head|
  {
    assert (head + t)[1..] == head[1..] + t;
    WordLengthAppend(head[1..], t);
  }

  lemma BareStable(s: string, t: string)
    requires s != [] && First(s).Reference? && !First(s).braced && (t == [] || !WordChar(t[0]))
    ensures First(s[..Width(s)] + t) == First(s)
  {
    var n := Width(s);
    var head := s[1..][..n - 1];
    IdentTake(s[1..]);
    IdentAppend(head, t);
    assert (s[..n] + t)[1..] == head + t;
    assert (head + t)[..n - 1] == head;
  }

  /** A token reads the same when only the text after it changes. */
  lemma TokenStable(s: string, t: string)
    requires s != [] && Follows(s, t)
    ensures First(s[..Width(s)] + t) == First(s)
  {
    match First(s)
    case Reference(_, _, braced) =>
      if braced {
        BracedStable(s, t);
      } else {
        BareStable(s, t);
      }
    case Unclosed => assert s[..Width(s)] + t == s;
    case _ =>
  }

  /** The text after the first pass still follows the token before it. */
  lemma StillFollows(s: string, first: Lookup)
    requires s != [] && !Known(s, first) && !Swallows(s, first)
    ensures Follows(s, Interpolated(s[Width(s)..], first))
  {
    var rest := s[Width(s)..];
    if First(s).Dollar? && rest != [] {
      assert First(rest).Literal?;
    }
  }

  /** Where the front swallows nothing, both ways of interpolating agree on it
      and differ only in what they make of the text behind it. */
  lemma FrontCancels(s: string, first: Lookup, second: Lookup) returns (piece: string)
    requires s != [] && PlainValues(first) && !Swallows(s, first)
    ensures Interpolated(Interpolated(s, first), second)
            == piece + Interpolated(Interpolated(s[Width(s)..], first), second)
    ensures Interpolated(s, Combined(first, second)) == piece + Interpolated(s[Width(s)..], Combined(first, second))
  {
    var t := Interpolated(s[Width(s)..], first);
    piece := Expansion(s, Combined(first, second));
    if Known(s, first) {
      PlainText(piece, t, second);
    } else {
      StillFollows(s, first);
      TokenStable(s, t);
      var s' := s[..Width(s)] + t;
      assert First(s).Unclosed? ==> s' == s;
      assert s'[Width(s)..] == t && s'[..Width(s)] == s[..Width(s)];
    }
  }

  /** What the first stage inserts holds no `$`. */
  ghost predicate PlainValues(first: Lookup) {
    forall name :: first(name).Some? ==> '$' !in first(name).value
  }

  /** Interpolating in two stages gives what one pass with both lookups gives. */
  predicate StagesAgree(s: string, first: Lookup, second: Lookup) {
    Interpolated(Interpolated(s, first), second) == Interpolated(s, Combined(first, second))
  }

  lemma {:induction false} SeparatedAgree(s: string, first: Lookup, second: Lookup)
    requires PlainValues(first) && Separated(s, first)
    ensures StagesAgree(s, first, second)
  {
    if s != [] {
      SeparatedAgree(s[Width(s)..], first, second);
      var piece := FrontCancels(s, first, second);
    }
  }

  lemma IdentGrows(head: string, t: string)
    requires head != [] && Letter(head[0]) && WordLength(head[1..]) == |head| - 1 && t != [] && WordChar(t[0])
    ensures IdentLength(head + t) > |head|
  {
    assert (head + t)[1..] == head[1..] + t;
    WordLengthAppend(head[1..], t);
  }

  /** A bare reference followed by a word character reads as one with a longer name. */
  lemma LongerName(s: string, t: string)
    requires s != [] && First(s).Reference? && !First(s).braced && t != [] && WordChar(t[0])
    ensures var s' := s[..Width(s)] + t; First(s').Reference? && |First(s').name| > |First(s).name|
  {
    var head := s[1..][..Width(s) - 1];
    IdentTake(s[1..]);
    IdentGrows(head, t);
    assert (s[..Width(s)] + t)[1..] == head + t;
  }

  /** A lookup that knows only the longer name tells the two apart. */
  lemma SwallowingShows(s: string, first: Lookup) returns (second: Lookup)
    requires s != [] && Swallows(s, first)
    ensures !StagesAgree(s, first, second)
  {
    LongerName(s, Interpolated(s[Width(s)..], first));
    var s' := Interpolated(s, first);
    var longer := First(s').name;
    second := name => if name == longer then Some("x") else None;
    assert Interpolated(s', second)[0] == 'x';
    assert Expansion(s, Combined(first, second))[0] == '$';
  }

  lemma StillDiffer(piece: string, a: string, b: string)
    requires a != b
    ensures piece + a != piece + b
  {
    assert (piece + a)[|piece|..] == a && (piece + b)[|piece|..] == b;
  }

  lemma {:induction false} UnseparatedDiffer(s: string, first: Lookup) returns (second: Lookup)
    requires PlainValues(first) && !Separated(s, first)
    ensures !StagesAgree(s, first, second)
  {
    if Swallows(s, first) {
      second := SwallowingShows(s, first);
    } else {
      var rest := s[Width(s)..];
      second := UnseparatedDiffer(rest, first);
      var piece := FrontCancels(s, first, second);
      StillDiffer(piece, Interpolated(Interpolated(rest, first), second), Interpolated(rest, Combined(first, second)));
    }
  }

  /** Staging is safe exactly for separated texts: interpolating in two stages
      equals one pass with both lookups, whatever the second one knows, if and
      only if no bare unknown reference swallows what the first stage leaves
      right behind it. */
  lemma StagesCompose(s: string, first: Lookup)
    requires PlainValues(first)
    ensures Separated(s, first) <==> forall second: Lookup :: StagesAgree(s, first, second)
  {
    if Separated(s, first) {
      forall second: Lookup
        ensures StagesAgree(s, first, second)
      {
        SeparatedAgree(s, first, second);
      }
    } else {
      var second := UnseparatedDiffer(s, first);
    }
  }

  /** The staging the router uses: every reference braced, environment first. */
  lemma BracedStagesCompose(s: string, environment: Lookup, modelId: string)
    requires AllBraced(s) && PlainValues(environment)
    ensures StagesAgree(s, environment, name => if name == "model_id" then Some(modelId) else None)
  {
    BracedIsSeparated(s, environment);
    StagesCompose(s, environment);
  }

  lemma SampleTokens()
    ensures First("$a${b}") == Reference("a", 2, false) && "$a${b}"[2..] == "${b}"
    ensures First("${b}") == Reference("b", 4, true)
    ensures First("$ac") == Reference("ac", 3, false)
  {
    assert "$a${b}"[1..] == "a${b}" && "a${b}"[1..] == "${b}";
    assert "${b}"[2..] == "b}" && "b}"[1..] == "}" && FindChar("b}", '}') == 1;
    assert "$ac"[1..] == "ac" && "ac"[1..] == "c" && "c"[1..] == "" && WordLength("c") == 1;
  }

  /** A bare unknown name does swallow text inserted right after it. */
  lemma BareReferenceSwallows(first: Lookup, second: Lookup)
    requires first("a").None? && first("b") == Some("c")
    requires second("a").None? && second("ac") == Some("x")
    ensures Interpolated(Interpolated("$a${b}", first), second) == "x"
    ensures Interpolated("$a${b}", Combined(first, second)) == "$ac"
  {
    SampleTokens();
    assert "${b}"[4..] == "" && "$ac"[3..] == "";
    assert Interpolated("${b}", first) == "c" && Interpolated("${b}", Combined(first, second)) == "c";
    assert "$a${b}"[..2] == "$a" && "$a" + "c" == "$ac";
  }

  // ---- The loop ----

  lemma {:induction false} SkipPlain(s: string, lookup: Lookup, n: nat)
    requires n <= FindChar(s, '$')
    ensures Interpolated(s, lookup) == s[..n] + Interpolated(s[n..], lookup)
  {
    PlainText(s[..n], s[n..], lookup);
    assert s[..n] + s[n..] == s;
  }

  /** Moving text from the front of `s` to the output keeps the whole. */
  lemma CopyPlain(out: string, s: string, lookup: Lookup, n: nat)
    requires n <= FindChar(s, '$')
    ensures out + s[..n] + Interpolated(s[n..], lookup) == out + Interpolated(s, lookup)
  {
    SkipPlain(s, lookup, n);
  }

  lemma CopyToken(out: string, s: string, lookup: Lookup, piece: string, n: nat)
    requires s != [] && Expansion(s, lookup) == piece && Width(s) == n
    ensures out + piece + Interpolated(s[n..], lookup) == out + Interpolated(s, lookup)
  {
  }

  /** The text a token turns into, and how much of the input it takes. */
  method Expand(s: string, lookup: Lookup) returns (piece: string, n: nat)
    requires s != [] && s[0] == '$' && !First(s).Unclosed?
    ensures piece == Expansion(s, lookup) && n == Width(s)
  {
    var t := First(s);
    if t.Escape? {
      piece, n := "$$", 2;
    } else if t.Reference? {
      var value := lookup(t.name);
      piece, n := if value.Some? then value.value else s[..t.length], t.length;
    } else {
      piece, n := "$", 1;
    }
  }

  method Interpolate(input: string, lookup: Lookup) returns (out: string)
    ensures out == Interpolated(input, lookup)
  {
    out := [];
    var rest := input;
    while FindChar(rest, '$') < |rest|
      invariant out + Interpolated(rest, lookup) == Interpolated(input, lookup)
      decreases |rest|
    {
      var start := FindChar(rest, '$');
      CopyPlain(out, rest, lookup, start);
      out, rest := out + rest[..start], rest[start..];
      if First(rest).Unclosed? {
        break;
      }
      var piece, n := Expand(rest, lookup);
      CopyToken(out, rest, lookup, piece, n);
      out, rest := out + piece, rest[n..];
    }
    Unreferenced(rest, lookup);
    out := out + rest;
  }

  /** What the loop leaves over has nothing to expand. */
  lemma Unreferenced(s: string, lookup: Lookup)
    requires FindChar(s, '$') == |s| || (s[0] == '$' && First(s).Unclosed?)
    ensures Interpolated(s, lookup) == s
  {
    if FindChar(s, '$') == |s| {
      SkipPlain(s, lookup, |s|);
    }
  }
}
