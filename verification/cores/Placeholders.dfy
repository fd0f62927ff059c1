/**
 Placeholders of prompt templates (shared/placeholders.py): `{{name}}`, and the older
 forms `${name}` and `$name`. Text is ASCII.
 */
module Placeholders {
  import opened Wrappers
  import opened Text

  /******* The pattern *******/

  /** How many of the first characters are white space: `\s*` */
  function Spaces(s: string): (n: nat)
    ensures n <= |s|
  {
    if s == "" || !IsSpace(s[0]) then 0 else 1 + Spaces(s[1..])
  }

  /** How many of the first characters are word characters: `\w*` */
  function Words(s: string): (n: nat)
    ensures n <= |s|
  {
    if s == "" || !IsWord(s[0]) then 0 else 1 + Words(s[1..])
  }

  /** A name and the length of the text that holds it. */
  datatype Match = Match(name: string, length: nat)

  /** `\{\{\s*(\w+)\s*\}\}` */
  function Braces(s: string): (m: Option<Match>)
    ensures m.Some? ==> 0 < m.value.length <= |s|
  {
    if !("{{" <= s) then None else
    var i := 2 + Spaces(s[2..]);
    var j := i + Words(s[i..]);
    var k := j + Spaces(s[j..]);
    if i < j && "}}" <= s[k..] then Some(Match(s[i..j], k + 2)) else None
  }

  /** `\$\{(\w+)\}` */
  function DollarBraces(s: string): (m: Option<Match>)
    ensures m.Some? ==> 0 < m.value.length <= |s|
  {
    if !("${" <= s) then None else
    var j := 2 + Words(s[2..]);
    if 2 < j && "}" <= s[j..] then Some(Match(s[2..j], j + 1)) else None
  }

  /** `\$(\w+)` */
  function Dollar(s: string): (m: Option<Match>)
    ensures m.Some? ==> 0 < m.value.length <= |s|
  {
    if !("$" <= s) then None else
    var j := 1 + Words(s[1..]);
    if 1 < j then Some(Match(s[1..j], j)) else None
  }

  /** PLACEHOLDER_RE at the beginning of `s`: the first alternative that matches. */
  function At(s: string): (m: Option<Match>)
    ensures m.Some? ==> 0 < m.value.length <= |s|
  {
    if Braces(s).Some? then Braces(s) else if DollarBraces(s).Some? then DollarBraces(s) else Dollar(s)
  }

  /** A template is read as single characters and placeholders with their text. */
  datatype Segment = Literal(c: char) | Placeholder(name: string, text: string)

  /** What `finditer` and `sub` see, from left to right. */
  function Scan(s: string): seq<Segment>
    decreases |s|
  {
    if s == "" then []
    else if At(s).Some? then
      var m := At(s).value;
      [Placeholder(m.name, s[..m.length])] + Scan(s[m.length..])
    else [Literal(s[0])] + Scan(s[1..])
  }

  function Source(g: Segment): string {
    match g case Literal(c) => [c] case Placeholder(_, text) => text
  }

  function Concat(gs: seq<Segment>): string {
    if gs == [] then "" else Source(gs[0]) + Concat(gs[1..])
  }

  /** `identifiers` */
  function Identifiers(template: string): set<string> {
    Names(Scan(template))
  }

  function Names(gs: seq<Segment>): set<string> {
    set g | g in gs && g.Placeholder? :: g.name
  }

  /** `_repl` */
  function Replace(g: Segment, values: map<string, string>): string {
    if g.Placeholder? && g.name in values then values[g.name] else Source(g)
  }

  function Fill(gs: seq<Segment>, values: map<string, string>): string {
    if gs == [] then "" else Replace(gs[0], values) + Fill(gs[1..], values)
  }

  /** `substitute` */
  function Substitute(template: string, values: map<string, string>): string {
    Fill(Scan(template), values)
  }

  /******* What the scanner keeps *******/

  /** The segments are the template. */
  lemma {:induction false} ScanIsLossless(s: string)
    ensures Concat(Scan(s)) == s
    decreases |s|
  {
    if s == "" {
    } else if At(s).Some? {
      var n := At(s).value.length;
      ScanIsLossless(s[n..]);
      assert s == s[..n] + s[n..];
    } else {
      ScanIsLossless(s[1..]);
      assert s == [s[0]] + s[1..];
    }
  }

  lemma {:induction false} FillDependsOnNames(gs: seq<Segment>, v: map<string, string>, w: map<string, string>)
    requires forall name | name in Names(gs) :: (name in v <==> name in w) && (name in v ==> v[name] == w[name])
    ensures Fill(gs, v) == Fill(gs, w)
  {
    if gs != [] {
      assert gs[0] in gs && forall g | g in gs[1..] :: g in gs;
      FillDependsOnNames(gs[1..], v, w);
    }
  }

  /** Only the values of the identifiers matter. */
  lemma SubstituteDependsOnIdentifiers(s: string, v: map<string, string>, w: map<string, string>)
    requires forall name | name in Identifiers(s) :: (name in v <==> name in w) && (name in v ==> v[name] == w[name])
    ensures Substitute(s, v) == Substitute(s, w)
  {
    FillDependsOnNames(Scan(s), v, w);
  }

  lemma {:induction false} FillNothing(gs: seq<Segment>)
    ensures Fill(gs, map[]) == Concat(gs)
  {
    if gs != [] { FillNothing(gs[1..]); }
  }

  /** Where no identifier has a value, the template stays as it is. */
  lemma SubstituteNothing(s: string, values: map<string, string>)
    requires Identifiers(s) !! values.Keys
    ensures Substitute(s, values) == s
  {
    SubstituteDependsOnIdentifiers(s, values, map[]);
    FillNothing(Scan(s));
    ScanIsLossless(s);
  }

  /******* Printing and reading back *******/

  datatype Style = Modern | Legacy | Bare

  /** A piece of a template as an author means it. */
  datatype Piece = Plain(text: string) | Hole(name: string, style: Style)

  predicate IsName(s: string) {
    s != "" && forall i | 0 <= i < |s| :: IsWord(s[i])
  }

  /** Nothing in the text can begin a placeholder. */
  predicate Harmless(s: string) {
    forall i | 0 <= i < |s| :: s[i] != '{' && s[i] != '$'
  }

  function PrintOne(p: Piece): string {
    match p
    case Plain(text) => text
    case Hole(name, Modern) => "{{" + name + "}}"
    case Hole(name, Legacy) => "${" + name + "}"
    case Hole(name, Bare) => "$" + name
  }

  function Print(ps: seq<Piece>): string {
    if ps == [] then "" else PrintOne(ps[0]) + Print(ps[1..])
  }

  /** Names are names, plain text is harmless, and what follows a bare name does not prolong it. */
  predicate Printable(ps: seq<Piece>) {
    ps != [] ==>
      && (match ps[0]
          case Plain(text) => Harmless(text)
          case Hole(name, style) =>
            IsName(name) && (style == Bare ==> Print(ps[1..]) == "" || !IsWord(Print(ps[1..])[0])))
      && Printable(ps[1..])
  }

  function Literals(s: string): seq<Segment> {
    if s == "" then [] else [Literal(s[0])] + Literals(s[1..])
  }

  function Meant(ps: seq<Piece>): seq<Segment> {
    if ps == [] then [] else
    (match ps[0]
     case Plain(text) => Literals(text)
     case Hole(name, style) => [Placeholder(name, PrintOne(ps[0]))]) + Meant(ps[1..])
  }

  lemma {:induction false} WordsOf(name: string, rest: string)
    requires forall i | 0 <= i < |name| :: IsWord(name[i])
    requires rest == "" || !IsWord(rest[0])
    ensures Words(name + rest) == |name|
  {
    if name == "" {
      assert name + rest == rest;
    } else {
      assert (name + rest)[1..] == name[1..] + rest;
      WordsOf(name[1..], rest);
    }
  }

  lemma ReadsModern(name: string, rest: string)
    requires IsName(name)
    ensures At(PrintOne(Hole(name, Modern)) + rest) == Some(Match(name, |PrintOne(Hole(name, Modern))|))
  {
    var tail := "}}" + rest;
    var s := "{{" + name + tail;
    assert s == PrintOne(Hole(name, Modern)) + rest;
    assert s[2..] == name + tail && s[2 + |name|..] == tail && s[2..2 + |name|] == name;
    WordsOf(name, tail);
    assert Spaces(s[2..]) == 0 by { assert s[2..][0] == name[0]; }
    assert Spaces(tail) == 0;
    assert Braces(s) == Some(Match(name, |name| + 4));
  }

  lemma ReadsLegacy(name: string, rest: string)
    requires IsName(name)
    ensures At(PrintOne(Hole(name, Legacy)) + rest) == Some(Match(name, |PrintOne(Hole(name, Legacy))|))
  {
    var s := "${" + name + "}" + rest;
    assert s[0] == '$' && s[1] == '{';
    assert s[2..] == name + ("}" + rest);
    WordsOf(name, "}" + rest);
    assert s[2 + |name|..] == "}" + rest && s[2..2 + |name|] == name;
  }

  lemma ReadsBare(name: string, rest: string)
    requires IsName(name) && (rest == "" || !IsWord(rest[0]))
    ensures At(PrintOne(Hole(name, Bare)) + rest) == Some(Match(name, |PrintOne(Hole(name, Bare))|))
  {
    var s := "$" + name + rest;
    assert s[1..] == name + rest;
    WordsOf(name, rest);
    assert s[1..1 + |name|] == name;
  }

  lemma NoMatch(s: string)
    requires s != "" && s[0] != '{' && s[0] != '$'
    ensures At(s) == None
  {
  }

  lemma {:induction false} ReadsPlain(text: string, rest: string)
    requires Harmless(text)
    ensures Scan(text + rest) == Literals(text) + Scan(rest)
  {
    if text == "" {
      assert text + rest == rest;
    } else {
      var s := text + rest;
      assert s[0] == text[0] && s[1..] == text[1..] + rest;
      NoMatch(s);
      ReadsPlain(text[1..], rest);
    }
  }

  lemma ReadsHole(name: string, style: Style, rest: string)
    requires IsName(name) && (style == Bare ==> rest == "" || !IsWord(rest[0]))
    ensures (var text := PrintOne(Hole(name, style)); Scan(text + rest) == [Placeholder(name, text)] + Scan(rest))
  {
    match style {
      case Modern => ReadsModern(name, rest);
      case Legacy => ReadsLegacy(name, rest);
      case Bare => ReadsBare(name, rest);
    }
    ScanHole(name, PrintOne(Hole(name, style)), rest);
  }

  lemma ScanHole(name: string, text: string, rest: string)
    requires At(text + rest) == Some(Match(name, |text|))
    ensures Scan(text + rest) == [Placeholder(name, text)] + Scan(rest)
  {
    assert (text + rest)[..|text|] == text && (text + rest)[|text|..] == rest;
  }

  /** What is printed is read back: exactly the names that were meant, in their order. */
  lemma {:induction false} PrintReadsBack(ps: seq<Piece>)
    requires Printable(ps)
    ensures Scan(Print(ps)) == Meant(ps)
  {
    if ps != [] {
      PrintReadsBack(ps[1..]);
      match ps[0]
      case Plain(text) => ReadsPlain(text, Print(ps[1..]));
      case Hole(name, style) => ReadsHole(name, style, Print(ps[1..]));
    }
  }

  function Render(ps: seq<Piece>, values: map<string, string>): string {
    if ps == [] then "" else
    (if ps[0].Hole? && ps[0].name in values then values[ps[0].name] else PrintOne(ps[0])) + Render(ps[1..], values)
  }

  lemma {:induction false} FillLiterals(text: string, gs: seq<Segment>, values: map<string, string>)
    ensures Fill(Literals(text) + gs, values) == text + Fill(gs, values)
  {
    if text == "" {
      assert Literals(text) + gs == gs;
    } else {
      FillLiterals(text[1..], gs, values);
      FillFirst(Literal(text[0]), Literals(text[1..]), gs, values);
      Rejoin(text, Fill(gs, values));
    }
  }

  lemma FillFirst(g: Segment, gs: seq<Segment>, hs: seq<Segment>, values: map<string, string>)
    ensures Fill([g] + gs + hs, values) == Replace(g, values) + Fill(gs + hs, values)
  {
    assert ([g] + gs + hs)[1..] == gs + hs;
  }

  lemma Rejoin(text: string, rest: string)
    requires text != ""
    ensures [text[0]] + (text[1..] + rest) == text + rest
  {
  }

  lemma {:induction false} FillMeant(ps: seq<Piece>, values: map<string, string>)
    ensures Fill(Meant(ps), values) == Render(ps, values)
  {
    if ps != [] {
      FillMeant(ps[1..], values);
      match ps[0]
      case Plain(text) => FillLiterals(text, Meant(ps[1..]), values);
      case Hole(name, style) => assert Meant(ps)[1..] == Meant(ps[1..]);
    }
  }

  /** Substituting in a printed template replaces the holes and nothing else, whatever the values contain. */
  lemma SubstituteRenders(ps: seq<Piece>, values: map<string, string>)
    requires Printable(ps)
    ensures Substitute(Print(ps), values) == Render(ps, values)
  {
    PrintReadsBack(ps);
    FillMeant(ps, values);
  }

  lemma OneHole(name: string, values: map<string, string>)
    requires IsName(name) && name in values
    ensures Substitute(PrintOne(Hole(name, Modern)), values) == values[name]
  {
    var ps := [Hole(name, Modern)];
    assert ps[1..] == [] && Print(ps) == PrintOne(ps[0]) + "" == PrintOne(ps[0]);
    SubstituteRenders(ps, values);
    assert Render(ps, values) == values[name] + "" == values[name];
  }

  /**
   One pass: whatever template a value holds, it is inserted as it is written, and only a
   second substitution would render it.
   */
  lemma NotReadAgain(name: string, ps: seq<Piece>, values: map<string, string>)
    requires IsName(name) && name in values && Printable(ps) && values[name] == Print(ps)
    ensures (var once := Substitute(PrintOne(Hole(name, Modern)), values);
             once == Print(ps) && Substitute(once, values) == Render(ps, values))
  {
    OneHole(name, values);
    SubstituteRenders(ps, values);
  }
}
