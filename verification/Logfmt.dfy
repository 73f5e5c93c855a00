/** The logfmt printer and a reader that recovers exactly what was printed. */
module Logfmt {
  import opened Common

  /** A field with the text of its value; `None` values are skipped. */
  type Field = (string, Option<string>)

  predicate NeedsQuotes(text: string) {
    text == "" || exists i :: 0 <= i < |text| && text[i] in {' ', '"', '=', '\n'}
  }

  /** Every occurrence of one character replaced. */
  function Replace(text: string, c: char, sub: string): string {
    if text == "" then "" else (if text[0] == c then sub else [text[0]]) + Replace(text[1..], c, sub)
  }

  function Quoted(text: string): string {
    "\"" + Replace(Replace(text, '\\', "\\\\"), '"', "\\\"") + "\""
  }

  function Render(text: string): string {
    if NeedsQuotes(text) then Quoted(text) else text
  }

  /** The fields that are printed. */
  function Present(fields: seq<Field>): seq<(string, string)>
    decreases |fields|
  {
    if fields == [] then []
    else Present(Front(fields)) + (match Last(fields).1 case None => [] case Some(text) => [(Last(fields).0, text)])
  }

  function Join(parts: seq<string>): string
    decreases |parts|
  {
    if parts == [] then "" else if |parts| == 1 then parts[0] else parts[0] + " " + Join(parts[1..])
  }

  function Part(pair: (string, string)): string { pair.0 + "=" + Render(pair.1) }

  function Parts(pairs: seq<(string, string)>): (parts: seq<string>)
    ensures |parts| == |pairs|
    decreases |pairs|
  {
    if pairs == [] then [] else [Part(pairs[0])] + Parts(pairs[1..])
  }

  /** The printed line. */
  function Line(fields: seq<Field>): string { Join(Parts(Present(fields))) }

  lemma PartsStep(pair: (string, string), rest: seq<(string, string)>)
    ensures Parts([pair] + rest) == [Part(pair)] + Parts(rest)
  {
    hide Part;
    assert ([pair] + rest)[1..] == rest;
  }

  lemma {:induction false} PartsAppend(pairs: seq<(string, string)>, pair: (string, string))
    ensures Parts(pairs + [pair]) == Parts(pairs) + [Part(pair)]
    decreases |pairs|
  {
    if pairs == [] {
      hide Part;
      PartsStep(pair, []);
      assert pairs + [pair] == [pair] + [];
    } else {
      hide Part, Parts;
      PartsAppend(pairs[1..], pair);
      PartsStep(pairs[0], pairs[1..] + [pair]);
      PartsStep(pairs[0], pairs[1..]);
      assert pairs + [pair] == [pairs[0]] + (pairs[1..] + [pair]);
      assert pairs == [pairs[0]] + pairs[1..];
    }
  }

  lemma PresentStep(fields: seq<Field>, i: nat)
    requires i < |fields|
    ensures Present(fields[..i + 1])
         == match fields[i].1
            case None => Present(fields[..i])
            case Some(text) => Present(fields[..i]) + [(fields[i].0, text)]
  {
    assert Front(fields[..i + 1]) == fields[..i];
  }

  method Logfmt(fields: seq<Field>) returns (line: string)
    ensures line == Line(fields)
  {
    hide Join, Parts, Present, Replace, NeedsQuotes;
    var parts := [];
    assert Parts(Present(fields[..0])) == [] by { EmptyLine(fields); }
    for i := 0 to |fields|
      invariant parts == Parts(Present(fields[..i]))
    {
      var (key, value) := fields[i];
      PresentStep(fields, i);
      if value == None {
        continue;
      }
      var text := value.value;
      PartsAppend(Present(fields[..i]), (key, text));
      if NeedsQuotes(text) {
        text := "\"" + Replace(Replace(text, '\\', "\\\\"), '"', "\\\"") + "\"";
      }
      parts := parts + [key + "=" + text];
    }
    assert fields[..|fields|] == fields;
    line := Join(parts);
  }

  lemma EmptyLine(fields: seq<Field>)
    ensures Parts(Present(fields[..0])) == []
  {
  }

  // ---------- escaping ----------

  /** A backslash in front of every backslash and every quote. */
  function Escape(text: string): string {
    if text == "" then ""
    else (if text[0] == '\\' || text[0] == '"' then ['\\', text[0]] else [text[0]]) + Escape(text[1..])
  }

  lemma ReplaceCons(head: char, tail: string, c: char, sub: string)
    ensures Replace([head] + tail, c, sub) == (if head == c then sub else [head]) + Replace(tail, c, sub)
  {
    assert ([head] + tail)[1..] == tail;
  }

  /** The two successive replacements are one per-character escape. */
  lemma {:induction false} ReplacementsEscape(text: string)
    ensures Replace(Replace(text, '\\', "\\\\"), '"', "\\\"") == Escape(text)
  {
    if text != "" {
      hide Replace, Escape;
      var c, rest := text[0], text[1..];
      var tail := Replace(rest, '\\', "\\\\");
      ReplacementsEscape(rest);
      assert text == [c] + rest;
      EscapeStep(c, rest);
      ReplaceCons(c, rest, '\\', "\\\\");
      ReplaceCons(c, tail, '"', "\\\"");
      if c == '\\' {
        ReplaceCons(c, [c] + tail, '"', "\\\"");
        assert "\\\\" + tail == [c] + ([c] + tail);
        assert [c] + ([c] + Escape(rest)) == [c, c] + Escape(rest);
      }
    }
  }

  // ---------- the reader ----------

  /** The position of the first `c` at or after `i`, or the length. */
  function Find(s: string, i: nat, c: char): (j: nat)
    requires i <= |s|
    ensures i <= j <= |s|
    decreases |s| - i
  {
    if i == |s| || s[i] == c then i else Find(s, i + 1, c)
  }

  /** Reads an escaped text up to its closing quote: the text and the position after the quote. */
  function ReadQuoted(s: string, i: nat): Option<(string, nat)>
    requires i <= |s|
    ensures ReadQuoted(s, i).Some? ==> i < ReadQuoted(s, i).value.1 <= |s|
    decreases |s| - i
  {
    if i == |s| then None
    else if s[i] == '"' then Some(("", i + 1))
    else if s[i] == '\\' then
      if i + 1 == |s| then None
      else match ReadQuoted(s, i + 2)
        case None => None
        case Some((text, end)) => Some(([s[i + 1]] + text, end))
    else match ReadQuoted(s, i + 1)
      case None => None
      case Some((text, end)) => Some(([s[i]] + text, end))
  }

  function ReadValue(s: string, i: nat): Option<(string, nat)>
    requires i <= |s|
    ensures ReadValue(s, i).Some? ==> i <= ReadValue(s, i).value.1 <= |s|
  {
    if i < |s| && s[i] == '"' then ReadQuoted(s, i + 1)
    else Some((s[i..Find(s, i, ' ')], Find(s, i, ' ')))
  }

  /** Reads the pairs from position `i` on: a key up to `=`, a value, and a space before the next pair. */
  function ReadPairs(s: string, i: nat): Option<seq<(string, string)>>
    requires i <= |s|
    decreases |s| - i
  {
    var equals := Find(s, i, '=');
    if equals == |s| then None
    else match ReadValue(s, equals + 1)
      case None => None
      case Some((text, end)) =>
        if end == |s| then Some([(s[i..equals], text)])
        else if s[end] != ' ' then None
        else match ReadPairs(s, end + 1)
          case None => None
          case Some(rest) => Some([(s[i..equals], text)] + rest)
  }

  function ReadLine(s: string): Option<seq<(string, string)>> {
    if s == "" then Some([]) else ReadPairs(s, 0)
  }

  ghost predicate Free(s: string, c: char) {
    forall i :: 0 <= i < |s| ==> s[i] != c
  }

  /** `part` stands in `s` at position `i`. */
  ghost predicate HasAt(s: string, i: nat, part: string) {
    i + |part| <= |s| && s[i..i + |part|] == part
  }

  ghost predicate EndsWith(s: string, end: nat, c: char) {
    end == |s| || (end < |s| && s[end] == c)
  }

  lemma HasAtParts(s: string, i: nat, x: string, y: string)
    requires HasAt(s, i, x + y)
    ensures HasAt(s, i, x) && HasAt(s, i + |x|, y)
  {
    assert s[i..i + |x|] == (x + y)[..|x|];
    assert s[i + |x|..i + |x| + |y|] == (x + y)[|x|..];
  }

  lemma CharAt(s: string, i: nat, c: char)
    requires HasAt(s, i, [c])
    ensures i < |s| && s[i] == c
  {
    assert s[i] == s[i..i + 1][0];
  }

  lemma {:induction false} FindAt(s: string, i: nat, k: nat, part: string, c: char)
    requires HasAt(s, i, part) && Free(part, c) && k <= |part| && EndsWith(s, i + |part|, c)
    ensures Find(s, i + k, c) == i + |part|
    decreases |part| - k
  {
    if k < |part| {
      assert s[i + k] == s[i..i + |part|][k];
      FindAt(s, i, k + 1, part, c);
    }
  }

  lemma EscapeStep(c: char, rest: string)
    ensures Escape([c] + rest) == (if c == '\\' || c == '"' then ['\\', c] else [c]) + Escape(rest)
  {
    assert ([c] + rest)[1..] == rest;
  }

  lemma {:induction false} ReadQuotedAt(s: string, i: nat, text: string)
    requires HasAt(s, i, Escape(text)) && i + |Escape(text)| < |s| && s[i + |Escape(text)|] == '"'
    ensures ReadQuoted(s, i) == Some((text, i + |Escape(text)| + 1))
    decreases |text|
  {
    if text != "" {
      hide Escape, HasAt;
      var c, rest := text[0], text[1..];
      assert [c] + rest == text;
      EscapeStep(c, rest);
      if c == '\\' || c == '"' {
        HasAtParts(s, i, ['\\', c], Escape(rest));
        PairAt(s, i, '\\', c);
        ReadQuotedAt(s, i + 2, rest);
      } else {
        HasAtParts(s, i, [c], Escape(rest));
        CharAt(s, i, c);
        ReadQuotedAt(s, i + 1, rest);
      }
    }
  }

  lemma PairAt(s: string, i: nat, c: char, d: char)
    requires HasAt(s, i, [c, d])
    ensures i + 1 < |s| && s[i] == c && s[i + 1] == d
  {
    assert s[i] == s[i..i + 2][0] && s[i + 1] == s[i..i + 2][1];
  }

  lemma RenderQuoted(text: string)
    requires NeedsQuotes(text)
    ensures Render(text) == ['"'] + (Escape(text) + ['"'])
  {
    ReplacementsEscape(text);
    hide Replace, Escape, NeedsQuotes;
    assert ['"'] + Escape(text) + ['"'] == ['"'] + (Escape(text) + ['"']);
  }

  lemma ReadQuotedValue(s: string, i: nat, text: string)
    requires NeedsQuotes(text) && HasAt(s, i, Render(text))
    ensures ReadValue(s, i) == Some((text, i + |Render(text)|))
  {
    hide Render, Escape, NeedsQuotes, ReadQuoted, Find, HasAt;
    RenderQuoted(text);
    HasAtParts(s, i, ['"'], Escape(text) + ['"']);
    HasAtParts(s, i + 1, Escape(text), ['"']);
    CharAt(s, i, '"');
    CharAt(s, i + 1 + |Escape(text)|, '"');
    ReadQuotedAt(s, i + 1, text);
  }

  lemma ReadPlainValue(s: string, i: nat, text: string)
    requires !NeedsQuotes(text) && HasAt(s, i, text) && EndsWith(s, i + |text|, ' ')
    ensures ReadValue(s, i) == Some((text, i + |text|))
  {
    assert Free(text, ' ') && text[0] != '"';
    FindAt(s, i, 0, text, ' ');
    assert s[i] == s[i..i + |text|][0];
  }

  /** Reading a rendered value, followed by a space or the end, gives back the text. */
  lemma ReadValueAt(s: string, i: nat, text: string)
    requires HasAt(s, i, Render(text)) && EndsWith(s, i + |Render(text)|, ' ')
    ensures ReadValue(s, i) == Some((text, i + |Render(text)|))
  {
    if NeedsQuotes(text) {
      ReadQuotedValue(s, i, text);
    } else {
      ReadPlainValue(s, i, text);
    }
  }

  /** No key contains the separator. */
  ghost predicate ReadableKeys(pairs: seq<(string, string)>) {
    forall i :: 0 <= i < |pairs| ==> Free(pairs[i].0, '=')
  }

  /** What is read once the key and the value are known. */
  lemma ReadPairsAfter(s: string, i: nat, key: string, text: string, end: nat)
    requires i <= |s| && Find(s, i, '=') == i + |key| < |s| && s[i..i + |key|] == key
    requires ReadValue(s, i + |key| + 1) == Some((text, end)) && EndsWith(s, end, ' ')
    ensures end == |s| ==> ReadPairs(s, i) == Some([(key, text)])
    ensures end < |s| ==> ReadPairs(s, i) == Followed((key, text), ReadPairs(s, end + 1))
  {
    hide Find, ReadValue;
  }

  /** Reading one printed pair and going on with what follows. */
  lemma ReadOnePair(s: string, i: nat, pair: (string, string))
    requires Free(pair.0, '=') && HasAt(s, i, Part(pair)) && EndsWith(s, i + |Part(pair)|, ' ')
    ensures i <= |s|
    ensures i + |Part(pair)| == |s| ==> ReadPairs(s, i) == Some([pair])
    ensures i + |Part(pair)| < |s| ==>
              ReadPairs(s, i) == Followed(pair, ReadPairs(s, i + |Part(pair)| + 1))
  {
    var (key, text) := pair;
    PartSplit(key, text);
    hide Render, Part, Find, ReadValue, Free, HasAt, ReadPairs, Followed;
    HasAtParts(s, i, key, ['='] + Render(text));
    HasAtParts(s, i + |key|, ['='], Render(text));
    CharAt(s, i + |key|, '=');
    FindAt(s, i, 0, key, '=');
    ReadValueAt(s, i + |key| + 1, text);
    KeyAt(s, i, key);
    ReadPairsAfter(s, i, key, text, i + |Part(pair)|);
  }

  /** A pair in front of what was read after it. */
  function Followed(pair: (string, string), rest: Option<seq<(string, string)>>): Option<seq<(string, string)>> {
    match rest
    case None => None
    case Some(pairs) => Some([pair] + pairs)
  }

  lemma PartSplit(key: string, text: string)
    ensures Part((key, text)) == key + (['='] + Render(text))
  {
    hide Render;
    assert key + "=" + Render(text) == key + (['='] + Render(text));
  }

  lemma KeyAt(s: string, i: nat, key: string)
    requires HasAt(s, i, key)
    ensures i + |key| <= |s| && s[i..i + |key|] == key
  {
  }

  lemma JoinStep(first: string, rest: seq<string>)
    ensures Join([first] + rest) == first + (if rest == [] then "" else " " + Join(rest))
  {
    assert ([first] + rest)[1..] == rest;
    assert first + "" == first;
    if rest != [] {
      assert first + " " + Join(rest) == first + (" " + Join(rest));
    }
  }

  lemma SuffixParts(s: string, i: nat, x: string, y: string)
    requires i <= |s| && s[i..] == x + y
    ensures HasAt(s, i, x) && i + |x| <= |s| && s[i + |x|..] == y
  {
    assert s[i + |x|..] == s[i..][|x|..];
    assert s[i..i + |x|] == s[i..][..|x|];
  }

  /** From position `i` on the text prints the pairs. */
  ghost predicate PrintsFrom(s: string, i: nat, pairs: seq<(string, string)>) {
    i <= |s| && s[i..] == Join(Parts(pairs))
  }

  lemma PrintsStep(s: string, i: nat, pairs: seq<(string, string)>)
    requires pairs != [] && PrintsFrom(s, i, pairs)
    ensures var end := i + |Part(pairs[0])|;
      && HasAt(s, i, Part(pairs[0])) && end <= |s|
      && (if pairs[1..] == [] then end == |s| else end < |s| && s[end] == ' ' && PrintsFrom(s, end + 1, pairs[1..]))
  {
    hide Part, Join, Parts, HasAt;
    JoinParts(pairs);
    var rest := pairs[1..];
    if rest == [] {
      assert Part(pairs[0]) + "" == Part(pairs[0]);
      SuffixParts(s, i, Part(pairs[0]), "");
    } else {
      SuffixParts(s, i, Part(pairs[0]), [' '] + Join(Parts(rest)));
      SuffixParts(s, i + |Part(pairs[0])|, [' '], Join(Parts(rest)));
      CharAt(s, i + |Part(pairs[0])|, ' ');
    }
  }

  lemma {:induction false} ReadPairsAt(s: string, i: nat, pairs: seq<(string, string)>)
    requires pairs != [] && ReadableKeys(pairs) && PrintsFrom(s, i, pairs)
    ensures i <= |s| && ReadPairs(s, i) == Some(pairs)
    decreases |pairs|
  {
    hide Part, ReadPairs, Free, HasAt, PrintsFrom, ReadableKeys;
    PrintsStep(s, i, pairs);
    ReadableParts(pairs);
    ReadOnePair(s, i, pairs[0]);
    if pairs[1..] == [] {
      assert pairs == [pairs[0]];
    } else {
      ReadPairsAt(s, i + |Part(pairs[0])| + 1, pairs[1..]);
      assert pairs == [pairs[0]] + pairs[1..];
    }
  }

  lemma JoinParts(pairs: seq<(string, string)>)
    requires pairs != []
    ensures Join(Parts(pairs)) == Part(pairs[0]) + (if pairs[1..] == [] then "" else [' '] + Join(Parts(pairs[1..])))
  {
    hide Part, Join, Parts;
    PartsStep(pairs[0], pairs[1..]);
    assert pairs == [pairs[0]] + pairs[1..];
    JoinStep(Part(pairs[0]), Parts(pairs[1..]));
  }

  lemma ReadableParts(pairs: seq<(string, string)>)
    requires pairs != [] && ReadableKeys(pairs)
    ensures Free(pairs[0].0, '=') && ReadableKeys(pairs[1..])
  {
    hide Free;
    assert forall k :: 0 <= k < |pairs| - 1 ==> pairs[1..][k] == pairs[k + 1];
  }

  /** The line is uniquely readable: for keys without `=` the reader recovers exactly the printed pairs. */
  lemma ReadLinePrinted(fields: seq<Field>)
    requires ReadableKeys(Present(fields))
    ensures ReadLine(Line(fields)) == Some(Present(fields))
  {
    var pairs := Present(fields);
    hide Present;
    if pairs != [] {
      NonEmptyLine(pairs);
      var line := Line(fields);
      assert line[0..] == line;
      ReadPairsAt(line, 0, pairs);
    }
  }

  lemma NonEmptyLine(pairs: seq<(string, string)>)
    requires pairs != []
    ensures Join(Parts(pairs)) != ""
  {
    hide Parts;
    PartsStep(pairs[0], pairs[1..]);
    assert pairs == [pairs[0]] + pairs[1..];
    JoinStep(Part(pairs[0]), Parts(pairs[1..]));
  }

  /** Two field lists print alike exactly when the fields they show are the same. */
  lemma PrintsAlikeExactly(x: seq<Field>, y: seq<Field>)
    requires ReadableKeys(Present(x)) && ReadableKeys(Present(y))
    ensures Line(x) == Line(y) <==> Present(x) == Present(y)
  {
    hide Present, ReadLine;
    ReadLinePrinted(x);
    ReadLinePrinted(y);
  }

  // ---------- keys with `=` ----------

  ghost predicate EndsIn(s: string, c: char) { s == "" || s[|s| - 1] == c }

  lemma TailFree(p: string, u: string, c: char)
    requires Free(u, c)
    ensures forall j :: |p| <= j < |p + u| ==> (p + u)[j] != c
  {
    assert forall j :: |p| <= j < |p + u| ==> (p + u)[j] == u[j - |p|];
  }

  lemma TailStart(p: string, u: string, q: string, w: string, c: char)
    requires p + u == q + w && EndsIn(q, c) && Free(u, c)
    ensures |q| <= |p|
  {
    TailFree(p, u, c);
    assert q == (q + w)[..|q|];
  }

  /** A text splits in one way only behind its last `c`. */
  lemma SameTail(p: string, u: string, q: string, w: string, c: char)
    requires p + u == q + w && EndsIn(p, c) && EndsIn(q, c) && Free(u, c) && Free(w, c)
    ensures p == q && u == w
  {
    TailStart(p, u, q, w, c);
    TailStart(q, w, p, u, c);
    assert p == (p + u)[..|p|] && q == (q + w)[..|q|];
    assert u == (p + u)[|p|..] && w == (q + w)[|q|..];
  }

  /** In an escaped text every quote has a backslash right before it. */
  lemma {:induction false} EscapedQuote(text: string, i: nat)
    requires i < |Escape(text)| && Escape(text)[i] == '"'
    ensures i > 0 && Escape(text)[i - 1] == '\\'
    decreases |text|
  {
    var head := if text[0] == '\\' || text[0] == '"' then ['\\', text[0]] else [text[0]];
    assert Escape(text) == head + Escape(text[1..]);
    if i >= |head| {
      EscapedQuote(text[1..], i - |head|);
    }
  }

  lemma EscapeInjective(x: string, y: string)
    requires Escape(x) == Escape(y)
    ensures x == y
  {
    hide Escape;
    var s := Escape(x) + ['"'];
    assert s[0..0 + |Escape(x)|] == Escape(x);
    ReadQuotedAt(s, 0, x);
    ReadQuotedAt(s, 0, y);
  }

  /** Behind the opening quote every quote but the last has a backslash right before it. */
  lemma InnerQuotes(v: string, y: string)
    ensures var line := v + (['"'] + (Escape(y) + ['"']));
      forall j :: |v| < j < |line| - 1 && line[j] == '"' ==> line[j - 1] == '\\'
  {
    hide Escape;
    var line := v + (['"'] + (Escape(y) + ['"']));
    forall j | |v| < j < |line| - 1 && line[j] == '"'
      ensures line[j - 1] == '\\'
    {
      EscapedQuote(y, j - |v| - 1);
    }
  }

  lemma OpeningNotLater(u: string, x: string, v: string, y: string)
    requires u != "" && u[|u| - 1] == '='
    requires u + (['"'] + (Escape(x) + ['"'])) == v + (['"'] + (Escape(y) + ['"']))
    ensures |u| <= |v|
  {
    InnerQuotes(v, y);
    hide Escape;
    var line := u + (['"'] + (Escape(x) + ['"']));
    assert line[|u|] == '"' && line[|u| - 1] == '=';
  }

  /** The opening quote of the last value can be found from the end of the line. */
  lemma SameOpening(u: string, x: string, v: string, y: string)
    requires u != "" && u[|u| - 1] == '=' && v != "" && v[|v| - 1] == '='
    requires u + (['"'] + (Escape(x) + ['"'])) == v + (['"'] + (Escape(y) + ['"']))
    ensures u == v && x == y
  {
    hide Escape;
    OpeningNotLater(u, x, v, y);
    OpeningNotLater(v, y, u, x);
    var line := u + (['"'] + (Escape(x) + ['"']));
    assert u == line[..|u|] && v == line[..|v|];
    assert Escape(x) == line[|u| + 1..|line| - 1] && Escape(y) == line[|v| + 1..|line| - 1];
    EscapeInjective(x, y);
  }

  lemma LastCharacter(text: string)
    ensures Render(text) != "" && (Render(text)[|Render(text)| - 1] == '"' <==> NeedsQuotes(text))
  {
    if NeedsQuotes(text) {
      hide Replace, NeedsQuotes;
    }
  }

  lemma PartAfter(p: string, key: string, text: string)
    ensures p + Part((key, text)) == (p + key + ['=']) + Render(text)
  {
    PartSplit(key, text);
    hide Part, Render;
    assert p + (key + (['='] + Render(text))) == (p + key + ['=']) + Render(text);
  }

  /** The last pair of a line whose keys hold no space can be read from its end. */
  lemma LastPartUnique(p: string, a: (string, string), q: string, b: (string, string))
    requires p + Part(a) == q + Part(b) && EndsIn(p, ' ') && EndsIn(q, ' ') && Free(a.0, ' ') && Free(b.0, ' ')
    ensures p == q && a == b
  {
    hide Part, Render, Free, EndsIn;
    PartAfter(p, a.0, a.1);
    PartAfter(q, b.0, b.1);
    SameValue(p + a.0 + ['='], a.1, q + b.0 + ['='], b.1);
    SameFront(p + a.0, q + b.0, '=');
    SameTail(p, a.0, q, b.0, ' ');
  }

  lemma SameFront(u: string, v: string, c: char)
    requires u + [c] == v + [c]
    ensures u == v
  {
    assert u == (u + [c])[..|u|] && v == (v + [c])[..|v|];
  }

  lemma SameValue(u: string, x: string, v: string, y: string)
    requires u != "" && u[|u| - 1] == '=' && v != "" && v[|v| - 1] == '='
    requires u + Render(x) == v + Render(y)
    ensures u == v && x == y
  {
    hide NeedsQuotes, Escape, Quoted;
    LastCharacter(x);
    LastCharacter(y);
    var line := u + Render(x);
    assert line[|line| - 1] == Render(x)[|Render(x)| - 1] == Render(y)[|Render(y)| - 1];
    if NeedsQuotes(x) {
      RenderQuoted(x);
      RenderQuoted(y);
      SameOpening(u, x, v, y);
    } else {
      PlainValue(x);
      PlainValue(y);
      SameTail(u, x, v, y, '=');
    }
  }

  lemma PlainValue(text: string)
    requires !NeedsQuotes(text)
    ensures Free(text, '=') && Free(text, ' ')
  {
  }

  lemma {:induction false} JoinAppend(parts: seq<string>, last: string)
    ensures Join(parts + [last]) == (if parts == [] then "" else Join(parts) + " ") + last
    decreases |parts|
  {
    hide Join;
    if parts == [] {
      assert parts + [last] == [last] + [] && last + "" == last == "" + last;
      JoinStep(last, []);
    } else {
      JoinAppend(parts[1..], last);
      JoinStep(parts[0], parts[1..] + [last]);
      JoinStep(parts[0], parts[1..]);
      assert parts + [last] == [parts[0]] + (parts[1..] + [last]) && parts == [parts[0]] + parts[1..];
      if parts[1..] == [] {
        assert parts[0] + "" == parts[0] && "" + last == last;
        assert parts[0] + (" " + last) == parts[0] + " " + last;
      } else {
        Regroup(parts[0], Join(parts[1..]), last);
      }
    }
  }

  lemma Regroup(first: string, rest: string, last: string)
    ensures first + (" " + (rest + " " + last)) == (first + (" " + rest)) + " " + last
  {
  }

  /** What stands in front of the last pair. */
  function Lead(pairs: seq<(string, string)>): string {
    if pairs == [] then "" else Join(Parts(pairs)) + " "
  }

  lemma PrintedAppend(pairs: seq<(string, string)>, pair: (string, string))
    ensures Join(Parts(pairs + [pair])) == Lead(pairs) + Part(pair)
  {
    hide Join, Part;
    PartsAppend(pairs, pair);
    JoinAppend(Parts(pairs), Part(pair));
  }

  ghost predicate SpaceFreeKeys(pairs: seq<(string, string)>) {
    forall i :: 0 <= i < |pairs| ==> Free(pairs[i].0, ' ')
  }

  lemma {:induction false} SpaceFreeUnique(x: seq<(string, string)>, y: seq<(string, string)>)
    requires SpaceFreeKeys(x) && SpaceFreeKeys(y) && Join(Parts(x)) == Join(Parts(y))
    ensures x == y
    decreases |x|
  {
    hide Join, Parts, Part, Free;
    EmptyPrint();
    if x == [] {
      if y != [] { NonEmptyLine(y); }
    } else if y == [] {
      NonEmptyLine(x);
    } else {
      var front, a, rest, b := Front(x), Last(x), Front(y), Last(y);
      assert x == front + [a] && y == rest + [b];
      PrintedAppend(front, a);
      PrintedAppend(rest, b);
      assert Free(x[|x| - 1].0, ' ') && Free(y[|y| - 1].0, ' ');
      LastPartUnique(Lead(front), a, Lead(rest), b);
      SameLead(front, rest);
      SpaceFreeUnique(front, rest);
    }
  }

  lemma EmptyPrint()
    ensures Join(Parts([])) == ""
  {
  }

  lemma SameLead(x: seq<(string, string)>, y: seq<(string, string)>)
    requires Lead(x) == Lead(y)
    ensures Join(Parts(x)) == Join(Parts(y))
  {
    if x == [] {
      assert y == [];
    } else {
      var line := Lead(x);
      assert y != [];
      assert Join(Parts(x)) == line[..|line| - 1] && Join(Parts(y)) == line[..|line| - 1];
    }
  }

  /** Lists whose keys hold no space, `=` or not, print alike exactly when they show the same pairs. */
  lemma SpaceFreeKeysPrintAlike(x: seq<Field>, y: seq<Field>)
    requires SpaceFreeKeys(Present(x)) && SpaceFreeKeys(Present(y))
    ensures Line(x) == Line(y) <==> Present(x) == Present(y)
  {
    hide Present, Join, Parts;
    if Line(x) == Line(y) {
      SpaceFreeUnique(Present(x), Present(y));
    }
  }

  lemma ShownOne(key: string, text: string)
    ensures Present([(key, Some(text))]) == [(key, text)]
    ensures Line([(key, Some(text))]) == Part((key, text))
  {
    var fields: seq<Field> := [(key, Some(text))];
    assert Front(fields) == [];
    assert Present(fields) == [] + [(key, text)] == [(key, text)];
    hide Part;
    PrintedAppend([], (key, text));
    assert [] + [(key, text)] == [(key, text)];
    assert "" + Part((key, text)) == Part((key, text));
  }

  lemma ShownTwo(k1: string, t1: string, k2: string, t2: string)
    ensures Present([(k1, Some(t1)), (k2, Some(t2))]) == [(k1, t1), (k2, t2)]
    ensures Line([(k1, Some(t1)), (k2, Some(t2))]) == Part((k1, t1)) + " " + Part((k2, t2))
  {
    var fields: seq<Field> := [(k1, Some(t1)), (k2, Some(t2))];
    ShownOne(k1, t1);
    assert Front(fields) == [(k1, Some(t1))];
    assert Present(fields) == [(k1, t1)] + [(k2, t2)] == [(k1, t1), (k2, t2)];
    hide Part;
    PrintedAppend([(k1, t1)], (k2, t2));
    assert [(k1, t1)] + [(k2, t2)] == [(k1, t1), (k2, t2)];
  }

  /** A key that holds a printed pair and a space before the rest prints like the two pairs. */
  lemma AmbiguousKeys(k: string, v: string, k2: string, w: string)
    ensures var x := [(k, Some(v)), (k2, Some(w))]; var y := [(Part((k, v)) + " " + k2, Some(w))];
      Line(x) == Line(y) && Present(x) != Present(y)
  {
    var key := Part((k, v)) + " " + k2;
    ShownTwo(k, v, k2, w);
    ShownOne(key, w);
    PartSplit(k2, w);
    PartSplit(key, w);
    hide Part, Render;
    var tail := ['='] + Render(w);
    assert Part((k, v)) + " " + (k2 + tail) == Part((k, v)) + " " + k2 + tail;
  }

  lemma EscapeOne(c: char)
    ensures Escape([c]) == if c == '\\' || c == '"' then ['\\', c] else [c]
  {
    assert [c][1..] == "";
  }

  lemma {:induction false} EscapeConcat(x: string, y: string)
    ensures Escape(x + y) == Escape(x) + Escape(y)
    decreases |x|
  {
    if x == "" {
      assert x + y == y;
    } else {
      hide Escape;
      EscapeConcat(x[1..], y);
      EscapeStep(x[0], x[1..]);
      EscapeStep(x[0], x[1..] + y);
      assert [x[0]] + x[1..] == x;
      ConcatAssociates([x[0]], x[1..], y);
      ConcatAssociates(Escape([x[0]]), Escape(x[1..]), Escape(y));
      EscapeOne(x[0]);
    }
  }

  /** A text that needs no escaping. */
  ghost predicate Plain(text: string) { Escape(text) == text }

  lemma PlainConcat(x: string, y: string)
    requires Plain(x) && Plain(y)
    ensures Plain(x + y)
  {
    EscapeConcat(x, y);
  }

  lemma SpreadPlain(a: string, b: string, c: string)
    requires Plain(a) && Plain(b) && Plain(c)
    ensures Plain(a + "=" + b + " " + c)
  {
    SeparatorsPlain();
    hide Plain;
    PlainConcat(a, "=");
    PlainConcat(a + "=", b);
    PlainConcat(a + "=" + b, " ");
    PlainConcat(a + "=" + b + " ", c);
  }

  lemma SpreadNeedsQuotes(a: string, b: string, c: string)
    ensures NeedsQuotes(a + "=" + b + " " + c)
  {
    assert (a + "=" + b + " " + c)[|a|] == '=';
  }

  lemma RenderPlain(text: string)
    requires Plain(text) && NeedsQuotes(text)
    ensures Render(text) == "\"" + text + "\""
  {
    assert Escape(text) == text;
    hide Render, Escape, NeedsQuotes;
    RenderQuoted(text);
    assert "\"" + text + "\"" == ['"'] + (text + ['"']);
  }

  lemma RenderSpread(a: string, b: string, c: string)
    requires Plain(a) && Plain(b) && Plain(c)
    ensures Render(a + "=" + b + " " + c) == "\"" + (a + "=" + b + " " + c) + "\""
  {
    hide Render, Plain, NeedsQuotes;
    SpreadPlain(a, b, c);
    SpreadNeedsQuotes(a, b, c);
    RenderPlain(a + "=" + b + " " + c);
  }

  lemma SeparatorsPlain()
    ensures Plain("=") && Plain(" ")
  {
    assert "="[1..] == "" && " "[1..] == "";
  }

  /** Each key is free of `=` or free of spaces. */
  ghost predicate OneKind(pairs: seq<(string, string)>) {
    forall i :: 0 <= i < |pairs| ==> Free(pairs[i].0, '=') || Free(pairs[i].0, ' ')
  }

  /**
   * The two classes may not be mixed: for all these k, a, b, c, k2 and w two different lists
   * print alike, and if k and a hold no space and c and k2 no `=`, no key holds both.
   */
  lemma MixedKeysAmbiguous(k: string, a: string, b: string, c: string, k2: string, w: string)
    requires Plain(a) && Plain(b) && Plain(c) && !NeedsQuotes(b)
    ensures var x := [(k + "=\"" + a, Some(b)), (c + "\" " + k2, Some(w))];
      var y := [(k, Some(a + "=" + b + " " + c)), (k2, Some(w))];
      && Line(x) == Line(y) && Present(x) != Present(y)
      && (Free(k, ' ') && Free(a, ' ') && Free(c, '=') && Free(k2, '=')
          ==> OneKind(Present(x)) && OneKind(Present(y)))
  {
    KeysOfOneKind(k, a, c, k2);
    ShownTwo(k + "=\"" + a, b, c + "\" " + k2, w);
    ShownTwo(k, a + "=" + b + " " + c, k2, w);
    RenderSpread(a, b, c);
    assert Render(b) == b;
    hide Render, Plain, NeedsQuotes, Free;
    MixedLine(k, a, b, c, k2, Render(w));
  }

  lemma KeysOfOneKind(k: string, a: string, c: string, k2: string)
    ensures k + "=\"" + a != k
    ensures Free(k, ' ') && Free(a, ' ') ==> Free(k + "=\"" + a, ' ')
    ensures Free(c, '=') && Free(k2, '=') ==> Free(c + "\" " + k2, '=')
  {
    assert |k + "=\"" + a| > |k|;
  }

  lemma MixedLine(k: string, a: string, b: string, c: string, k2: string, r: string)
    ensures (k + "=\"" + a) + "=" + b + " " + ((c + "\" " + k2) + "=" + r)
         == (k + "=" + ("\"" + (a + "=" + b + " " + c) + "\"")) + " " + (k2 + "=" + r)
  {
  }

  // ---------- which values are quoted, and which fields are printed ----------

  lemma {:induction false} EscapeLonger(text: string)
    ensures |Escape(text)| >= |text|
  {
    if text != "" {
      EscapeLonger(text[1..]);
    }
  }

  /** A value is printed as it is exactly if it is not empty and has no space, quote, `=` or newline. */
  lemma PlainExactly(text: string)
    ensures Render(text) == text
       <==> text != "" && ' ' !in text && '"' !in text && '=' !in text && '\n' !in text
  {
    hide Replace, Escape;
    if NeedsQuotes(text) {
      RenderQuoted(text);
      EscapeLonger(text);
    }
  }

  lemma {:induction false} PresentConcat(x: seq<Field>, y: seq<Field>)
    ensures Present(x + y) == Present(x) + Present(y)
    decreases |y|
  {
    if y == [] {
      assert x + y == x;
    } else {
      PresentConcat(x, Front(y));
      assert Front(x + y) == x + Front(y);
    }
  }

  /** A field without a value is left out of the line; any other appears in its place. */
  lemma FieldsPrinted(x: seq<Field>, key: string, text: string, y: seq<Field>)
    ensures Line(x + [(key, None)] + y) == Line(x + y)
    ensures Present(x + [(key, Some(text))] + y) == Present(x) + [(key, text)] + Present(y)
  {
    ShownOne(key, text);
    NoneShown(key);
    hide Present, Join, Parts;
    PresentConcat(x, y);
    PresentConcat(x + [(key, None)], y);
    PresentConcat(x, [(key, None)]);
    PresentConcat(x + [(key, Some(text))], y);
    PresentConcat(x, [(key, Some(text))]);
    assert Present(x) + [] == Present(x);
  }

  lemma NoneShown(key: string)
    ensures Present([(key, None)]) == []
  {
    var fields: seq<Field> := [(key, None)];
    assert Front(fields) == [];
  }
}
