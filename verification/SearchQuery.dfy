/**
 * The text form of a search query: tags and bare words, printed, cut into tokens and parsed.
 * Text is a sequence of Unicode characters; lower-casing enters as `low`, one character at a
 * time.
 */
module SearchQuery {

  datatype Mod = Require | Exclude | Optional | OptionalExclude | Unknown(name: string)
  datatype Tag = Tag(name: string, mod: Mod, value: string)
  datatype Query = Query(text: string, tags: seq<Tag>)

  // ---------------------------------------------------------------- strings

  /** `unicode.IsSpace`. */
  predicate IsSpace(c: char) {
    || c == ' ' || '\t' <= c <= '\r' || c == '\U{0085}' || c == '\U{00A0}' || c == '\U{1680}'
    || '\U{2000}' <= c <= '\U{200A}' || c == '\U{2028}' || c == '\U{2029}' || c == '\U{202F}' || c == '\U{205F}' || c == '\U{3000}'
  }

  predicate Trimmed(s: string) { s == [] || (!IsSpace(s[0]) && !IsSpace(s[|s| - 1])) }

  function TrimSpace(s: string): (t: string)
    ensures Trimmed(t) && |t| <= |s|
    ensures Trimmed(s) <==> t == s
    ensures |t| == |s| ==> t == s
    ensures forall c :: c in t ==> c in s
  {
    if s == [] then []
    else if IsSpace(s[0]) then TrimSpace(s[1..])
    else if IsSpace(s[|s| - 1]) then TrimSpace(s[..|s| - 1])
    else s
  }

  /** `strings.Join(ss, " ")`. */
  function Join(ss: seq<string>): string {
    if ss == [] then ""
    else if |ss| == 1 then ss[0]
    else Join(ss[..|ss| - 1]) + " " + ss[|ss| - 1]
  }

  function Lower(low: char -> char, s: string): (t: string)
    ensures |t| == |s| && forall i :: 0 <= i < |s| ==> t[i] == low(s[i])
  {
    seq(|s|, i requires 0 <= i < |s| => low(s[i]))
  }

  // ---------------------------------------------------------------- the printer

  function Prefix(m: Mod): string {
    match m
    case Exclude => "-"
    case Optional => "?"
    case OptionalExclude => "~"
    case _ => ""
  }

  function Quoted(s: string): string { if ' ' in s then "\"" + s + "\"" else s }

  function Head(t: Tag): string { Prefix(t.mod) + t.name }

  function PrintTag(t: Tag): string { Head(t) + ":" + Quoted(t.value) }

  function PrintTags(ts: seq<Tag>): (ss: seq<string>)
    ensures |ss| == |ts| && forall i :: 0 <= i < |ts| ==> ss[i] == PrintTag(ts[i])
  {
    seq(|ts|, i requires 0 <= i < |ts| => PrintTag(ts[i]))
  }

  function PrintText(s: string): seq<string> {
    var t := TrimSpace(s);
    if t == "" then [] else [Quoted(t)]
  }

  function Marshal(q: Query): string { Join(PrintTags(q.tags) + PrintText(q.text)) }

  // ---------------------------------------------------------------- the tokenizer

  datatype Lex = Lex(tokens: seq<string>, cur: string, inQuote: bool)

  const START := Lex([], [], false)

  function Flush(st: Lex): Lex {
    if st.cur == [] then st else Lex(st.tokens + [st.cur], [], st.inQuote)
  }

  function Step(st: Lex, c: char): Lex {
    if c == '"' then st.(inQuote := !st.inQuote)
    else if c == ' ' && !st.inQuote then Flush(st)
    else st.(cur := st.cur + [c])
  }

  function Run(st: Lex, s: string): Lex {
    if s == [] then st else Step(Run(st, s[..|s| - 1]), s[|s| - 1])
  }

  function Tokens(s: string): seq<string> { Flush(Run(START, s)).tokens }

  // ---------------------------------------------------------------- the parser

  datatype Found = Found(words: seq<string>, tags: seq<Tag>)

  /** The modifier in front of a token, and the rest of it. */
  function Split(token: string): (Mod, string) {
    if token == [] then (Require, token)
    else if token[0] == '-' then (Exclude, token[1..])
    else if token[0] == '?' then (Optional, token[1..])
    else if token[0] == '~' then (OptionalExclude, token[1..])
    else (Require, token)
  }

  /** The first position of a colon, or the length. */
  function ColonAt(s: string): (n: nat)
    ensures n <= |s| && (n < |s| ==> s[n] == ':') && forall i :: 0 <= i < n ==> s[i] != ':'
  {
    if s == [] || s[0] == ':' then 0 else 1 + ColonAt(s[1..])
  }

  function Add(low: char -> char, f: Found, token: string): Found {
    var (mod, body) := Split(token);
    var n := ColonAt(body);
    if n < |body| then f.(tags := f.tags + [Tag(Lower(low, body[..n]), mod, Lower(low, body[n + 1..]))])
    else f.(words := f.words + [Lower(low, body)])
  }

  function Parse(low: char -> char, f: Found, tokens: seq<string>): Found {
    if tokens == [] then f else Add(low, Parse(low, f, tokens[..|tokens| - 1]), tokens[|tokens| - 1])
  }

  const NOTHING := Found([], [])

  function Unmarshal(low: char -> char, s: string): Query {
    var f := Parse(low, NOTHING, Tokens(s));
    Query(Join(f.words), f.tags)
  }

  // ---------------------------------------------------------------- the loops

  method MarshalText(q: Query) returns (s: string)
    ensures s == Marshal(q)
  {
    var tokens: seq<string> := [];
    for i := 0 to |q.tags|
      invariant tokens == PrintTags(q.tags[..i])
    {
      var tag := q.tags[i];
      var prefix := "";
      match tag.mod {
        case Exclude => prefix := "-";
        case Optional => prefix := "?";
        case OptionalExclude => prefix := "~";
        case Require =>
        case Unknown(_) =>
      }
      var value := tag.value;
      if ' ' in value {
        value := "\"" + value + "\"";
      }
      tokens := tokens + [prefix + tag.name + ":" + value];
      assert q.tags[..i + 1] == q.tags[..i] + [tag];
    }
    assert q.tags[..|q.tags|] == q.tags;
    var t := TrimSpace(q.text);
    if t != "" {
      tokens := tokens + [Quoted(t)];
    } else {
      assert tokens == tokens + [];
    }
    s := Join(tokens);
  }

  method TokenizeQuery(s: string) returns (tokens: seq<string>)
    ensures tokens == Tokens(s)
  {
    tokens := [];
    var cur: string, inQuote := [], false;
    for i := 0 to |s|
      invariant Lex(tokens, cur, inQuote) == Run(START, s[..i])
    {
      assert s[..i + 1][..i] == s[..i];
      if s[i] == '"' {
        inQuote := !inQuote;
      } else if s[i] == ' ' && !inQuote {
        if |cur| > 0 {
          tokens, cur := tokens + [cur], [];
        }
      } else {
        cur := cur + [s[i]];
      }
    }
    assert s[..|s|] == s;
    if |cur| > 0 {
      tokens := tokens + [cur];
    }
  }

  method UnmarshalText(low: char -> char, s: string) returns (q: Query)
    ensures q == Unmarshal(low, s)
  {
    var words: seq<string>, tags: seq<Tag> := [], [];
    var tokens := TokenizeQuery(s);
    for i := 0 to |tokens|
      invariant Found(words, tags) == Parse(low, NOTHING, tokens[..i])
    {
      assert tokens[..i + 1][..i] == tokens[..i];
      var (mod, body) := Split(tokens[i]);
      var n := ColonAt(body);
      if n < |body| {
        tags := tags + [Tag(Lower(low, body[..n]), mod, Lower(low, body[n + 1..]))];
      } else {
        words := words + [Lower(low, body)];
      }
    }
    assert tokens[..|tokens|] == tokens;
    q := Query(Join(words), tags);
  }

  // ---------------------------------------------------------------- lexing a printed query

  lemma {:induction false} RunConcat(st: Lex, a: string, b: string)
    ensures Run(st, a + b) == Run(Run(st, a), b)
    decreases |b|
  {
    if b == [] {
      assert a + b == a;
    } else {
      assert (a + b)[..|a + b| - 1] == a + b[..|b| - 1];
      RunConcat(st, a, b[..|b| - 1]);
    }
  }

  lemma {:induction false} RunPlain(st: Lex, s: string)
    requires '"' !in s && (st.inQuote || ' ' !in s)
    ensures Run(st, s) == st.(cur := st.cur + s)
    decreases |s|
  {
    if s == [] {
      assert st.cur + [] == st.cur;
    } else {
      var init := s[..|s| - 1];
      RunPlain(st, init);
      assert st.cur + init + [s[|s| - 1]] == st.cur + s;
    }
  }

  lemma RunOne(st: Lex, c: char)
    ensures Run(st, [c]) == Step(st, c)
  {
    assert [c][..0] == [];
  }

  lemma RunQuoted(st: Lex, v: string)
    requires '"' !in v && !st.inQuote
    ensures Run(st, Quoted(v)) == st.(cur := st.cur + v)
  {
    if ' ' in v {
      RunConcat(st, "\"" + v, "\"");
      RunConcat(st, "\"", v);
      RunOne(st, '"');
      RunPlain(st.(inQuote := true), v);
      RunOne(st.(inQuote := true, cur := st.cur + v), '"');
    } else {
      RunPlain(st, v);
    }
  }

  /** Tokens already found do not matter to what follows. */
  lemma {:induction false} RunShift(ts: seq<string>, st: Lex, s: string)
    ensures Run(st.(tokens := ts + st.tokens), s) == Run(st, s).(tokens := ts + Run(st, s).tokens)
    decreases |s|
  {
    if s != [] {
      var init := s[..|s| - 1];
      RunShift(ts, st, init);
      var r := Run(st, init);
      assert ts + r.tokens + [r.cur] == ts + (r.tokens + [r.cur]);
    }
  }

  /** A piece that ends outside quotes with a token begun. */
  predicate Settled(p: string) { Run(START, p).cur != [] && !Run(START, p).inQuote }

  predicate AllSettled(ps: seq<string>) { forall i :: 0 <= i < |ps| ==> Settled(ps[i]) }

  function PieceTokens(p: string): seq<string> { Run(START, p).tokens + [Run(START, p).cur] }

  function AllTokens(ps: seq<string>): seq<string> {
    if ps == [] then [] else AllTokens(ps[..|ps| - 1]) + PieceTokens(ps[|ps| - 1])
  }

  lemma PieceAfter(ts: seq<string>, p: string)
    requires Settled(p)
    ensures var r := Run(Lex(ts, [], false), p); r.tokens + [r.cur] == ts + PieceTokens(p) && r.cur != [] && !r.inQuote
  {
    assert ts + [] == ts;
    RunShift(ts, START, p);
    var r := Run(START, p);
    assert ts + r.tokens + [r.cur] == ts + (r.tokens + [r.cur]);
  }

  lemma {:induction false} RunJoin(ps: seq<string>)
    requires ps != [] && AllSettled(ps)
    ensures var r := Run(START, Join(ps)); r.tokens + [r.cur] == AllTokens(ps) && r.cur != [] && !r.inQuote
    decreases |ps|
  {
    var p := ps[|ps| - 1];
    var init := ps[..|ps| - 1];
    if |ps| == 1 {
      assert AllTokens(init) == [];
    } else {
      RunJoin(init);
      RunSpaced(Join(init), p);
      PieceAfter(AllTokens(init), p);
    }
  }

  lemma RunSpaced(s: string, p: string)
    ensures var r := Run(START, s);
            r.cur != [] && !r.inQuote ==> Run(START, s + " " + p) == Run(Lex(r.tokens + [r.cur], [], false), p)
  {
    RunConcat(START, s + " ", p);
    RunConcat(START, s, " ");
    RunOne(Run(START, s), ' ');
  }

  lemma TokensOfJoin(ps: seq<string>)
    requires AllSettled(ps)
    ensures Tokens(Join(ps)) == AllTokens(ps)
  {
    if ps != [] {
      RunJoin(ps);
    }
  }

  // ---------------------------------------------------------------- when printing and parsing are inverse

  predicate IsModifier(c: char) { c == '-' || c == '?' || c == '~' }

  predicate StartsWithModifier(s: string) { s != [] && IsModifier(s[0]) }

  predicate Clean(low: char -> char, s: string) { '"' !in s && Lower(low, s) == s }

  predicate TagPrintable(low: char -> char, t: Tag) {
    && Clean(low, t.name) && Clean(low, t.value) && !t.mod.Unknown?
    && ' ' !in t.name && ':' !in t.name
    && (t.mod == Require ==> !StartsWithModifier(t.name))
  }

  predicate TextPrintable(low: char -> char, s: string) {
    Clean(low, s) && Trimmed(s) && ':' !in s && !StartsWithModifier(s)
  }

  predicate Printable(low: char -> char, q: Query) {
    (forall i :: 0 <= i < |q.tags| ==> TagPrintable(low, q.tags[i])) && TextPrintable(low, q.text)
  }

  /** Lower-casing settles in one step and neither moves nor makes the characters with a meaning. */
  ghost predicate Folds(low: char -> char) {
    && (forall c :: low(low(c)) == low(c))
    && (forall c :: Special(c) || Special(low(c)) ==> low(c) == c)
  }

  predicate Special(c: char) { c == ' ' || c == '"' || c == ':' || IsModifier(c) }

  lemma {:induction false} ParseConcat(low: char -> char, f: Found, a: seq<string>, b: seq<string>)
    ensures Parse(low, f, a + b) == Parse(low, Parse(low, f, a), b)
    decreases |b|
  {
    if b == [] {
      assert a + b == a;
    } else {
      assert (a + b)[..|a + b| - 1] == a + b[..|b| - 1];
      ParseConcat(low, f, a, b[..|b| - 1]);
    }
  }

  lemma ParseOne(low: char -> char, f: Found, token: string)
    ensures Parse(low, f, [token]) == Add(low, f, token)
  {
    assert [token][..0] == [];
  }

  lemma HeadChars(t: Tag, c: char)
    ensures !IsModifier(c) ==> (c in Head(t) <==> c in t.name)
  {
  }

  /** The tokens of a printed tag: those cut from its name, and the one that holds the colon. */
  lemma TagPiece(t: Tag)
    requires '"' !in t.name && '"' !in t.value
    ensures Settled(PrintTag(t))
    ensures var r := Run(START, Head(t));
            PieceTokens(PrintTag(t)) == r.tokens + [r.cur + ":" + t.value]
  {
    var head := Head(t);
    var r := Run(START, head);
    HeadChars(t, '"');
    RunOutside(head);
    RunConcat(START, head + ":", Quoted(t.value));
    RunConcat(START, head, ":");
    RunOne(r, ':');
    RunQuoted(r.(cur := r.cur + ":"), t.value);
  }

  lemma {:induction false} RunOutside(s: string)
    requires '"' !in s
    ensures var r := Run(START, s);
            !r.inQuote && ' ' !in r.cur && (':' !in s ==> ':' !in r.cur && NoColons(r.tokens))
    decreases |s|
  {
    if s != [] {
      RunOutside(s[..|s| - 1]);
    }
  }

  predicate NoColons(ts: seq<string>) { forall i :: 0 <= i < |ts| ==> ':' !in ts[i] }

  lemma {:induction false} WordsOnly(low: char -> char, f: Found, ts: seq<string>)
    requires NoColons(ts)
    ensures Parse(low, f, ts).tags == f.tags
    decreases |ts|
  {
    if ts != [] {
      WordsOnly(low, f, ts[..|ts| - 1]);
    }
  }

  /** The tag read from a token whose first colon stands after `head`. */
  function Reread(low: char -> char, head: string, value: string): Tag {
    var (mod, name) := Split(head);
    Tag(Lower(low, name), mod, Lower(low, value))
  }

  lemma AddTag(low: char -> char, f: Found, head: string, value: string)
    requires ':' !in head
    ensures Add(low, f, head + ":" + value) == f.(tags := f.tags + [Reread(low, head, value)])
  {
    var name := Split(head).1;
    assert Split(head + ":" + value).1 == name + ":" + value;
    assert ':' !in name;
    CutAt(name, value);
  }

  lemma CutAt(name: string, value: string)
    requires ':' !in name
    ensures var body := name + ":" + value;
            ColonAt(body) == |name| < |body| && body[..|name|] == name && body[|name| + 1..] == value
  {
    var body := name + ":" + value;
    assert body[|name|] == ':';
    assert forall i :: 0 <= i < |name| ==> body[i] == name[i];
  }

  ghost predicate Plain(ts: seq<Tag>) {
    forall i :: 0 <= i < |ts| ==> '"' !in ts[i].name && '"' !in ts[i].value && ':' !in ts[i].name
  }

  lemma PlainSettled(ts: seq<Tag>)
    requires Plain(ts)
    ensures AllSettled(PrintTags(ts))
  {
    forall i | 0 <= i < |ts|
      ensures Settled(PrintTags(ts)[i])
    {
      TagPiece(ts[i]);
    }
  }

  function ParseTags(low: char -> char, ts: seq<Tag>): Found { Parse(low, NOTHING, AllTokens(PrintTags(ts))) }

  lemma PrintSnoc(ts: seq<Tag>)
    requires ts != []
    ensures AllTokens(PrintTags(ts)) == AllTokens(PrintTags(ts[..|ts| - 1])) + PieceTokens(PrintTag(ts[|ts| - 1]))
  {
    assert PrintTags(ts)[..|ts| - 1] == PrintTags(ts[..|ts| - 1]);
  }

  /** What reading a printed tag adds: words from a name with spaces, then one tag. */
  lemma TagAdds(low: char -> char, ts: seq<Tag>)
    requires ts != [] && Plain(ts)
    ensures var t, f := ts[|ts| - 1], ParseTags(low, ts[..|ts| - 1]);
            var r := Run(START, Head(t));
            ParseTags(low, ts) == Add(low, Parse(low, f, r.tokens), r.cur + ":" + t.value)
  {
    var t, f := ts[|ts| - 1], ParseTags(low, ts[..|ts| - 1]);
    var r := Run(START, Head(t));
    PrintSnoc(ts);
    TagPiece(t);
    var token := r.cur + ":" + t.value;
    ParseConcat(low, NOTHING, AllTokens(PrintTags(ts[..|ts| - 1])), r.tokens + [token]);
    ParseConcat(low, f, r.tokens, [token]);
    ParseOne(low, Parse(low, f, r.tokens), token);
  }

  lemma TagAddsTag(low: char -> char, ts: seq<Tag>)
    requires ts != [] && Plain(ts)
    ensures var t, f := ts[|ts| - 1], ParseTags(low, ts[..|ts| - 1]);
            var head := Head(t);
            && ParseTags(low, ts).tags == f.tags + [Reread(low, Run(START, head).cur, t.value)]
            && (' ' !in head ==> ParseTags(low, ts) == f.(tags := f.tags + [Reread(low, head, t.value)]))
  {
    var t, f := ts[|ts| - 1], ParseTags(low, ts[..|ts| - 1]);
    var head := Head(t);
    var r := Run(START, head);
    TagAdds(low, ts);
    HeadChars(t, '"');
    HeadChars(t, ':');
    RunOutside(head);
    WordsOnly(low, f, r.tokens);
    AddTag(low, Parse(low, f, r.tokens), r.cur, t.value);
    if ' ' !in head {
      RunPlain(START, head);
      assert [] + head == head;
    }
  }

  predicate Spaceless(ts: seq<Tag>) { forall i :: 0 <= i < |ts| ==> ' ' !in ts[i].name }

  /** One tag comes back for each, and never with a space in its name. */
  lemma {:induction false} TagsCount(low: char -> char, ts: seq<Tag>)
    requires Plain(ts) && Folds(low)
    ensures |ParseTags(low, ts).tags| == |ts| && Spaceless(ParseTags(low, ts).tags)
    decreases |ts|
  {
    if ts != [] {
      var t := ts[|ts| - 1];
      var head := Head(t);
      TagsCount(low, ts[..|ts| - 1]);
      TagAddsTag(low, ts);
      HeadChars(t, '"');
      RunOutside(head);
      NoSpaceInName(low, Run(START, head).cur, t.value);
    }
  }

  lemma NoSpaceInName(low: char -> char, head: string, value: string)
    requires Folds(low) && ' ' !in head
    ensures ' ' !in Reread(low, head, value).name
  {
    var name := Split(head).1;
    forall i | 0 <= i < |name|
      ensures low(name[i]) != ' '
    {
      assert name[i] in head;
    }
  }

  function RereadAll(low: char -> char, ts: seq<Tag>): (r: seq<Tag>)
    ensures |r| == |ts| && forall i :: 0 <= i < |ts| ==> r[i] == Reread(low, Head(ts[i]), ts[i].value)
  {
    seq(|ts|, i requires 0 <= i < |ts| => Reread(low, Head(ts[i]), ts[i].value))
  }

  /** Names without spaces: no word comes of the tags, and each tag is read back on its own. */
  lemma {:induction false} TagsReread(low: char -> char, ts: seq<Tag>)
    requires Plain(ts) && Spaceless(ts)
    ensures ParseTags(low, ts) == Found([], RereadAll(low, ts))
    decreases |ts|
  {
    if ts == [] {
      assert AllTokens(PrintTags(ts)) == [];
    } else {
      TagsReread(low, ts[..|ts| - 1]);
      TagAddsTag(low, ts);
      HeadChars(ts[|ts| - 1], ' ');
      RereadSnoc(low, ts);
    }
  }

  lemma RereadSnoc(low: char -> char, ts: seq<Tag>)
    requires ts != []
    ensures var t := ts[|ts| - 1];
            RereadAll(low, ts) == RereadAll(low, ts[..|ts| - 1]) + [Reread(low, Head(t), t.value)]
  {
  }

  /** A tag reads back as itself exactly when it is printable. */
  lemma RereadExact(low: char -> char, t: Tag)
    requires '"' !in t.name && '"' !in t.value && ' ' !in t.name && ':' !in t.name
    ensures Reread(low, Head(t), t.value) == t <==> TagPrintable(low, t)
  {
    var head := Head(t);
    match t.mod
    case Exclude => assert head[1..] == t.name;
    case Optional => assert head[1..] == t.name;
    case OptionalExclude => assert head[1..] == t.name;
    case Require => assert head == t.name;
    case Unknown(_) =>
  }

  // ---------------------------------------------------------------- the text

  lemma TextPiece(s: string)
    requires '"' !in s && s != []
    ensures Settled(Quoted(s)) && PieceTokens(Quoted(s)) == [s]
  {
    RunQuoted(START, s);
    assert [] + s == s && [] + [s] == [s];
  }

  /** The parse of a printed query: its tags, then its trimmed text as one more token. */
  lemma ParsePrinted(low: char -> char, q: Query)
    requires Plain(q.tags) && '"' !in q.text
    ensures var t, f := TrimSpace(q.text), ParseTags(low, q.tags);
            Parse(low, NOTHING, Tokens(Marshal(q))) == if t == "" then f else Add(low, f, t)
  {
    var t, f := TrimSpace(q.text), ParseTags(low, q.tags);
    PlainSettled(q.tags);
    var ps := PrintTags(q.tags);
    if t == "" {
      assert ps + PrintText(q.text) == ps;
      TokensOfJoin(ps);
    } else {
      TextPiece(t);
      var all := ps + [Quoted(t)];
      TokensOfJoin(all);
      assert all[..|all| - 1] == ps;
      ParseConcat(low, NOTHING, AllTokens(ps), [t]);
      ParseOne(low, f, t);
    }
  }

  lemma AddText(low: char -> char, f: Found, t: string)
    requires ':' !in t
    ensures Add(low, f, t) == f.(words := f.words + [Lower(low, Split(t).1)])
  {
    var body := Split(t).1;
    assert forall i :: 0 <= i < |body| ==> body[i] in t;
  }

  lemma AddColon(low: char -> char, f: Found, t: string)
    requires ':' in t
    ensures |Add(low, f, t).tags| == |f.tags| + 1
  {
    var body := Split(t).1;
    assert t[0] == ':' || ':' in t[1..];
    assert ':' in body;
  }

  // ---------------------------------------------------------------- the main results

  lemma RereadSame(low: char -> char, ts: seq<Tag>)
    requires Plain(ts) && Spaceless(ts)
    ensures RereadAll(low, ts) == ts <==> forall i :: 0 <= i < |ts| ==> TagPrintable(low, ts[i])
  {
    forall i | 0 <= i < |ts|
      ensures RereadAll(low, ts)[i] == ts[i] <==> TagPrintable(low, ts[i])
    {
      RereadExact(low, ts[i]);
    }
  }

  /** With clean tags and text, and no colon in the text, the words of the parse are the text alone. */
  lemma UnmarshalPlain(low: char -> char, q: Query)
    requires Plain(q.tags) && Spaceless(q.tags) && '"' !in q.text && ':' !in TrimSpace(q.text)
    ensures Unmarshal(low, Marshal(q)) == Query(Lower(low, Split(TrimSpace(q.text)).1), RereadAll(low, q.tags))
  {
    ParsePrinted(low, q);
    TagsReread(low, q.tags);
    var t := TrimSpace(q.text);
    if t != "" {
      AddText(low, Found([], RereadAll(low, q.tags)), t);
      assert [] + [Lower(low, Split(t).1)] == [Lower(low, Split(t).1)];
    }
  }

  /** A printable query is what its text parses to: same tags in order, same modifiers, same text. */
  lemma ParsePrint(low: char -> char, q: Query)
    requires Printable(low, q)
    ensures Unmarshal(low, Marshal(q)) == q
  {
    RereadSame(low, q.tags);
    UnmarshalPlain(low, q);
  }

  // ---------------------------------------------------------------- and no other query

  predicate QuoteFree(ts: seq<string>) { forall i :: 0 <= i < |ts| ==> '"' !in ts[i] }

  lemma {:induction false} RunDropsQuotes(s: string)
    ensures QuoteFree(Run(START, s).tokens) && '"' !in Run(START, s).cur
    decreases |s|
  {
    if s != [] {
      RunDropsQuotes(s[..|s| - 1]);
    }
  }

  lemma LowerClean(low: char -> char, s: string)
    requires Folds(low)
    ensures '"' !in s ==> Clean(low, Lower(low, s))
    ensures ':' !in s ==> ':' !in Lower(low, s)
  {
    var t := Lower(low, s);
    forall i | 0 <= i < |s|
      ensures low(t[i]) == t[i] && (t[i] == '"' ==> s[i] == '"') && (t[i] == ':' ==> s[i] == ':')
    {
      assert t[i] == low(s[i]);
    }
    assert Lower(low, t) == t;
  }

  predicate AllClean(low: char -> char, ss: seq<string>) { forall i :: 0 <= i < |ss| ==> Clean(low, ss[i]) }

  predicate TagClean(low: char -> char, t: Tag) { Clean(low, t.name) && Clean(low, t.value) && ':' !in t.name }

  predicate FoundClean(low: char -> char, f: Found) {
    AllClean(low, f.words) && forall i :: 0 <= i < |f.tags| ==> TagClean(low, f.tags[i])
  }

  lemma AddClean(low: char -> char, f: Found, token: string)
    requires Folds(low) && FoundClean(low, f) && '"' !in token
    ensures FoundClean(low, Add(low, f, token))
  {
    var body := Split(token).1;
    assert forall i :: 0 <= i < |body| ==> body[i] in token;
    var n := ColonAt(body);
    LowerClean(low, body);
    if n < |body| {
      LowerClean(low, body[..n]);
      LowerClean(low, body[n + 1..]);
    }
  }

  lemma {:induction false} ParseClean(low: char -> char, tokens: seq<string>)
    requires Folds(low) && QuoteFree(tokens)
    ensures FoundClean(low, Parse(low, NOTHING, tokens))
    decreases |tokens|
  {
    if tokens != [] {
      ParseClean(low, tokens[..|tokens| - 1]);
      AddClean(low, Parse(low, NOTHING, tokens[..|tokens| - 1]), tokens[|tokens| - 1]);
    }
  }

  lemma ConcatClean(low: char -> char, a: string, b: string)
    requires Clean(low, a) && Clean(low, b)
    ensures Clean(low, a + b)
  {
    assert Lower(low, a + b) == Lower(low, a) + Lower(low, b);
  }

  lemma {:induction false} JoinClean(low: char -> char, ss: seq<string>)
    requires Folds(low) && AllClean(low, ss)
    ensures Clean(low, Join(ss))
    decreases |ss|
  {
    if |ss| > 1 {
      JoinClean(low, ss[..|ss| - 1]);
      assert Lower(low, " ") == " ";
      ConcatClean(low, Join(ss[..|ss| - 1]), " ");
      ConcatClean(low, Join(ss[..|ss| - 1]) + " ", ss[|ss| - 1]);
    }
  }

  /** Whatever is parsed is lower-case and free of quotes, and its names are free of colons. */
  lemma ParsedClean(low: char -> char, s: string)
    requires Folds(low)
    ensures var q := Unmarshal(low, s);
            Clean(low, q.text) && forall i :: 0 <= i < |q.tags| ==> TagClean(low, q.tags[i])
  {
    RunDropsQuotes(s);
    ParseClean(low, Tokens(s));
    JoinClean(low, Parse(low, NOTHING, Tokens(s)).words);
  }

  /** A query that survives the trip is printable. */
  lemma OnlyPrintable(low: char -> char, q: Query)
    requires Folds(low) && Unmarshal(low, Marshal(q)) == q
    ensures Printable(low, q)
  {
    ParsedClean(low, Marshal(q));
    assert Plain(q.tags);
    var t := TrimSpace(q.text);
    ParsePrinted(low, q);
    TagsCount(low, q.tags);
    var f := ParseTags(low, q.tags);
    if ':' in t {
      AddColon(low, f, t);
    } else if t != "" {
      AddText(low, f, t);
    }
    assert ':' !in t && f.tags == q.tags;
    UnmarshalPlain(low, q);
    RereadSame(low, q.tags);
    TextSurvives(low, q.text);
  }

  lemma TextSurvives(low: char -> char, s: string)
    requires ':' !in TrimSpace(s) && Clean(low, s) && s == Lower(low, Split(TrimSpace(s)).1)
    ensures TextPrintable(low, s)
  {
    var t := TrimSpace(s);
    assert |s| == |Split(t).1|;
    assert !StartsWithModifier(t);
  }

  /** The printer and the parser are inverse on a query exactly when it is printable. */
  lemma ParsePrintExact(low: char -> char, q: Query)
    requires Folds(low)
    ensures Unmarshal(low, Marshal(q)) == q <==> Printable(low, q)
  {
    if Printable(low, q) {
      ParsePrint(low, q);
    }
    if Unmarshal(low, Marshal(q)) == q {
      OnlyPrintable(low, q);
    }
  }

  /** A required tag whose name starts with a modifier comes back as another tag. */
  lemma ModifierIsLost(low: char -> char)
    requires Folds(low)
    ensures var q := Query("", [Tag("-a", Require, "")]); Unmarshal(low, Marshal(q)) != q
  {
    var q := Query("", [Tag("-a", Require, "")]);
    assert !TagPrintable(low, q.tags[0]);
    ParsePrintExact(low, q);
  }

  // ---------------------------------------------------------------- any text

  /** A token without its modifier. */
  function Bare(t: string): string { if StartsWithModifier(t) then t[1..] else t }

  /** The tokens without a colon, bare and in lower case, in order. */
  function WordsOf(low: char -> char, ts: seq<string>): seq<string> {
    if ts == [] then []
    else
      var words, t := WordsOf(low, ts[..|ts| - 1]), ts[|ts| - 1];
      if ':' in t then words else words + [Lower(low, Bare(t))]
  }

  /** The tokens with a colon, in order. */
  function TagTokens(ts: seq<string>): seq<string> {
    if ts == [] then []
    else
      var tags, t := TagTokens(ts[..|ts| - 1]), ts[|ts| - 1];
      if ':' in t then tags + [t] else tags
  }

  /** `t` is modifier, name, colon and value of `tag`, up to letter case; the name ends at the first colon. */
  ghost predicate Spells(low: char -> char, t: string, tag: Tag) {
    && !tag.mod.Unknown? && (tag.mod == Require ==> !StartsWithModifier(t))
    && exists name, value :: Parts(low, t, tag, name, value)
  }

  predicate Parts(low: char -> char, t: string, tag: Tag, name: string, value: string) {
    && t == Prefix(tag.mod) + (name + ":" + value) && ':' !in name
    && tag.name == Lower(low, name) && tag.value == Lower(low, value)
  }

  ghost predicate SpellAll(low: char -> char, ts: seq<string>, tags: seq<Tag>) {
    |ts| == |tags| && forall i :: 0 <= i < |ts| ==> Spells(low, ts[i], tags[i])
  }

  lemma SpellSnoc(low: char -> char, ts: seq<string>, tags: seq<Tag>, t: string, tag: Tag)
    requires SpellAll(low, ts, tags) && Spells(low, t, tag)
    ensures SpellAll(low, ts + [t], tags + [tag])
  {
  }

  lemma TagSpelled(low: char -> char, f: Found, t: string) returns (tag: Tag)
    requires ':' in t
    ensures Add(low, f, t) == f.(tags := f.tags + [tag]) && Spells(low, t, tag)
  {
    ColonStays(t);
    var body := Split(t).1;
    var n := ColonAt(body);
    tag := Tag(Lower(low, body[..n]), Split(t).0, Lower(low, body[n + 1..]));
    TagSpells(low, t, body, n, tag);
  }

  lemma ColonStays(t: string)
    requires ':' in t
    ensures ColonAt(Split(t).1) < |Split(t).1|
  {
    assert t[0] == ':' || ':' in t[1..];
    assert ':' in Split(t).1;
  }

  lemma TagSpells(low: char -> char, t: string, body: string, n: nat, tag: Tag)
    requires body == Split(t).1 && n == ColonAt(body) < |body|
    requires tag == Tag(Lower(low, body[..n]), Split(t).0, Lower(low, body[n + 1..]))
    ensures Spells(low, t, tag)
  {
    Recompose(t);
    CutColon(body);
    assert Parts(low, t, tag, body[..n], body[n + 1..]);
  }

  lemma Recompose(t: string)
    ensures t == Prefix(Split(t).0) + Split(t).1
    ensures !Split(t).0.Unknown? && (Split(t).0 == Require ==> !StartsWithModifier(t))
  {
    if t != [] {
      assert t == [t[0]] + t[1..];
    }
  }

  lemma CutColon(body: string)
    ensures var n := ColonAt(body);
            n < |body| ==> body == body[..n] + ":" + body[n + 1..] && ':' !in body[..n]
  {
  }

  lemma {:induction false} ParseExact(low: char -> char, ts: seq<string>)
    ensures var f := Parse(low, NOTHING, ts);
            f.words == WordsOf(low, ts) && SpellAll(low, TagTokens(ts), f.tags)
    decreases |ts|
  {
    if ts != [] {
      var t, init := ts[|ts| - 1], ts[..|ts| - 1];
      ParseExact(low, init);
      var f := Parse(low, NOTHING, init);
      if ':' in t {
        var tag := TagSpelled(low, f, t);
        SpellSnoc(low, TagTokens(init), f.tags, t, tag);
      } else {
        AddText(low, f, t);
        assert Split(t).1 == Bare(t);
      }
    }
  }

  /** Any text: the words are its tokens without a colon, joined in order, and the tags are the others, in order. */
  lemma UnmarshalExact(low: char -> char, s: string)
    ensures var q := Unmarshal(low, s);
            q.text == Join(WordsOf(low, Tokens(s))) && SpellAll(low, TagTokens(Tokens(s)), q.tags)
  {
    ParseExact(low, Tokens(s));
  }

  predicate PlainPiece(p: string) { p != "" && ' ' !in p && '"' !in p }

  predicate AllPlain(ps: seq<string>) { forall i :: 0 <= i < |ps| ==> PlainPiece(ps[i]) }

  lemma {:induction false} PlainTokens(ps: seq<string>)
    requires AllPlain(ps)
    ensures AllSettled(ps) && AllTokens(ps) == ps
    decreases |ps|
  {
    if ps != [] {
      PlainTokens(ps[..|ps| - 1]);
      TextPiece(ps[|ps| - 1]);
      forall i | 0 <= i < |ps|
        ensures Settled(ps[i])
      {
        TextPiece(ps[i]);
      }
      assert ps == ps[..|ps| - 1] + [ps[|ps| - 1]];
    }
  }

  /** Words and tags typed with spaces between them are read one by one, as they were typed. */
  lemma UnmarshalPieces(low: char -> char, ps: seq<string>)
    requires AllPlain(ps)
    ensures Tokens(Join(ps)) == ps
    ensures var q := Unmarshal(low, Join(ps));
            q.text == Join(WordsOf(low, ps)) && SpellAll(low, TagTokens(ps), q.tags)
  {
    PlainTokens(ps);
    TokensOfJoin(ps);
    UnmarshalExact(low, Join(ps));
  }

  predicate PlainWord(w: string) { PlainPiece(w) && ':' !in w && !StartsWithModifier(w) }

  lemma {:induction false} WordsTogether(low: char -> char, ws: seq<string>)
    requires low(' ') == ' ' && forall i :: 0 <= i < |ws| ==> PlainWord(ws[i])
    ensures |WordsOf(low, ws)| == |ws| && TagTokens(ws) == [] && Join(WordsOf(low, ws)) == Lower(low, Join(ws))
    decreases |ws|
  {
    if ws != [] {
      var init, w := ws[..|ws| - 1], ws[|ws| - 1];
      WordsTogether(low, init);
      var all := WordsOf(low, ws);
      assert all == WordsOf(low, init) + [Lower(low, w)] && all[..|all| - 1] == WordsOf(low, init);
      if |ws| > 1 {
        assert Lower(low, Join(ws)) == Lower(low, Join(init)) + " " + Lower(low, w);
      }
    }
  }

  /** Plain words come back as they are, in lower case, every one of them. */
  lemma UnmarshalWords(low: char -> char, ws: seq<string>)
    requires low(' ') == ' ' && forall i :: 0 <= i < |ws| ==> PlainWord(ws[i])
    ensures Unmarshal(low, Join(ws)) == Query(Lower(low, Join(ws)), [])
  {
    UnmarshalPieces(low, ws);
    WordsTogether(low, ws);
  }

  /** The three modifiers, as typed in front of a tag. */
  lemma ModifierRead(low: char -> char, c: char, name: string, value: string)
    requires IsModifier(c) && PlainPiece([c] + name + ":" + value) && ':' !in name
    ensures Unmarshal(low, [c] + name + ":" + value) ==
            Query("", [Tag(Lower(low, name), if c == '-' then Exclude else if c == '?' then Optional else OptionalExclude, Lower(low, value))])
  {
    var t := [c] + name + ":" + value;
    PlainTokens([t]);
    TokensOfJoin([t]);
    assert Join([t]) == t;
    ParseOne(low, NOTHING, t);
    assert ':' !in [c] + name;
    AddTag(low, NOTHING, [c] + name, value);
    assert ([c] + name)[1..] == name;
  }
}
