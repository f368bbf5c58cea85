/**
 The texts of a purge's body that name keys, as a grammar: anything, the first "keys" label, anything up to a colon,
 and an array of quoted strings with white space wherever the documentation allows it. The server reads exactly these
 texts, with exactly these keys.
 */
module KeyGrammar {
  import opened Bytes
  import opened KeyList

  // ---------------------------------------------------------------- the grammar

  /** Space, tab, newline, vertical tab, form feed and carriage return. */
  predicate Blank(s: Text) {
    forall i :: 0 <= i < |s| ==> s[i] in {32, 9, 10, 11, 12, 13}
  }

  /** A character of a string: itself, or a backslash and a letter. */
  datatype Glyph = Itself(c: byte) | Escaped(letter: byte)

  predicate GlyphOk(g: Glyph) {
    match g
    case Itself(c) => c != '\"' as int && c != '\\' as int
    case Escaped(letter) => letter as char in "\"\\/nrt"
  }

  function GlyphText(g: Glyph): Text {
    match g
    case Itself(c) => [c]
    case Escaped(letter) => ['\\' as int, letter]
  }

  /** `\n`, `\r` and `\t` are control characters; `\"`, `\\` and `\/` what they show. */
  function GlyphMeans(g: Glyph): byte {
    match g
    case Itself(c) => c
    case Escaped(letter) =>
      if letter == 'n' as int then 10 else if letter == 'r' as int then 13 else if letter == 't' as int then 9
      else letter
  }

  function Spelled(gs: seq<Glyph>): Text {
    if |gs| == 0 then [] else GlyphText(gs[0]) + Spelled(gs[1..])
  }

  function Meaning(gs: seq<Glyph>): Text {
    seq(|gs|, i requires 0 <= i < |gs| => GlyphMeans(gs[i]))
  }

  /** A quoted string, the white space behind it, and the white space behind the comma that follows it. */
  datatype Item = Item(glyphs: seq<Glyph>, after: Text, next: Text)

  predicate ItemOk(item: Item) {
    (forall i :: 0 <= i < |item.glyphs| ==> GlyphOk(item.glyphs[i])) && Blank(item.after) && Blank(item.next)
  }

  function ItemText(item: Item): Text {
    ['\"' as int] + (Spelled(item.glyphs) + (['\"' as int] + item.after))
  }

  /** The items with their commas, and the closing bracket. */
  function ItemsText(items: seq<Item>): Text
    requires |items| > 0
  {
    ItemText(items[0]) +
    if |items| == 1 then [']' as int] else [',' as int] + (items[0].next + ItemsText(items[1..]))
  }

  function Keys(items: seq<Item>): seq<Text> {
    seq(|items|, i requires 0 <= i < |items| => Meaning(items[i].glyphs))
  }

  /** A whole body: what stands before the label, between label and colon, around the bracket, and behind it. */
  datatype Document = Document(lead: Text, gap: Text, before: Text, inside: Text, items: seq<Item>, trail: Text)

  function Label(): Text {
    ['\"' as int, 'k' as int, 'e' as int, 'y' as int, 's' as int, '\"' as int]
  }

  predicate DocumentOk(d: Document) {
    && (forall i :: 0 <= i < |d.lead| ==> !(Label() <= (d.lead + Label())[i..]))
    && (':' as int) !in d.gap && Blank(d.before) && Blank(d.inside)
    && forall i :: 0 <= i < |d.items| ==> ItemOk(d.items[i])
  }

  function ArrayText(d: Document): Text {
    ['[' as int] + (d.inside + ((if d.items == [] then [']' as int] else ItemsText(d.items)) + d.trail))
  }

  function DocumentText(d: Document): Text {
    d.lead + (Label() + (d.gap + ([':' as int] + (d.before + ArrayText(d)))))
  }

  // ---------------------------------------------------------------- reading what the grammar writes

  lemma {:induction false} SkipsBlank(b: Text, rest: Text)
    requires Blank(b) && (rest == [] || rest[0] !in {32, 9, 10, 11, 12, 13})
    ensures Skip(b + rest) == rest
  {
    if |b| == 0 {
      assert b + rest == rest;
    } else {
      assert (b + rest)[1..] == b[1..] + rest;
      SkipsBlank(b[1..], rest);
    }
  }

  lemma ReadsGlyph(g: Glyph, rest: Text)
    requires GlyphOk(g)
    ensures ParseChar(GlyphText(g) + rest) == Got(GlyphMeans(g), rest)
    ensures |GlyphText(g)| > 0 && GlyphText(g)[0] != QUOTE
  {
    var s := GlyphText(g) + rest;
    if g.Itself? {
      assert s[1..] == rest;
    } else {
      assert s[1] == g.letter && s[2..] == rest;
    }
  }

  lemma {:induction false} ReadsString(gs: seq<Glyph>, rest: Text)
    requires forall i :: 0 <= i < |gs| ==> GlyphOk(gs[i])
    ensures ParseString(Spelled(gs) + ([QUOTE] + rest)) == Got(Meaning(gs), rest)
  {
    hide GlyphText, GlyphMeans, GlyphOk, ParseChar;
    var s := Spelled(gs) + ([QUOTE] + rest);
    if |gs| == 0 {
      assert s == [QUOTE] + rest && s[1..] == rest;
      assert Meaning(gs) == [];
    } else {
      var t := Spelled(gs[1..]) + ([QUOTE] + rest);
      assert s == GlyphText(gs[0]) + t;
      ReadsGlyph(gs[0], t);
      assert s[0] == GlyphText(gs[0])[0];
      ReadsString(gs[1..], rest);
      assert Meaning(gs) == [GlyphMeans(gs[0])] + Meaning(gs[1..]);
    }
  }

  lemma ReadsItem(item: Item, rest: Text)
    requires ItemOk(item) && |rest| > 0 && rest[0] !in {32, 9, 10, 11, 12, 13}
    ensures ParseItem(ItemText(item) + rest) == Got(Meaning(item.glyphs), rest)
  {
    var s := ItemText(item) + rest;
    assert s[0] == QUOTE && s[1..] == Spelled(item.glyphs) + ([QUOTE] + (item.after + rest));
    ReadsString(item.glyphs, item.after + rest);
    SkipsBlank(item.after, rest);
  }

  lemma {:induction false} ReadsItems(items: seq<Item>, trail: Text, n: nat)
    requires |items| > 0 && forall i :: 0 <= i < |items| ==> ItemOk(items[i])
    ensures ParseItems(ItemsText(items) + trail, n) == if n + |items| <= 256 then Some(Keys(items)) else None
    decreases |items|
  {
    hide ParseItem, ItemText, Meaning;
    var s := ItemsText(items) + trail;
    if |items| == 1 {
      assert s == ItemText(items[0]) + ([CLOSE] + trail);
      ReadsItem(items[0], [CLOSE] + trail);
      assert Keys(items) == [Meaning(items[0].glyphs)];
    } else {
      var more := ItemsText(items[1..]) + trail;
      var rest := [COMMA] + (items[0].next + more);
      assert s == ItemText(items[0]) + rest;
      ReadsItem(items[0], rest);
      assert rest[1..] == items[0].next + more;
      assert more[0] == QUOTE by {
        StartsWithQuote(items[1..]);
      }
      SkipsBlank(items[0].next, more);
      ReadsItems(items[1..], trail, n + 1);
      assert Keys(items) == [Meaning(items[0].glyphs)] + Keys(items[1..]);
    }
  }

  lemma StartsWithQuote(items: seq<Item>)
    requires |items| > 0
    ensures |ItemsText(items)| > 0 && ItemsText(items)[0] == QUOTE
  {
  }

  lemma ReadsArray(d: Document)
    requires DocumentOk(d)
    ensures ParseArray(ArrayText(d)) == if |d.items| <= 256 then Some(Keys(d.items)) else None
  {
    hide ParseItems, ItemsText;
    var s := ArrayText(d);
    var body := (if d.items == [] then [CLOSE] else ItemsText(d.items)) + d.trail;
    assert s[0] == OPEN && s[1..] == d.inside + body;
    if d.items == [] {
      SkipsBlank(d.inside, body);
      assert Keys(d.items) == [];
    } else {
      StartsWithQuote(d.items);
      SkipsBlank(d.inside, body);
      ReadsItems(d.items, d.trail, 0);
    }
  }

  lemma FindsFirst(lead: Text, pattern: Text, rest: Text)
    requires forall i :: 0 <= i < |lead| ==> !(pattern <= (lead + (pattern + rest))[i..])
    ensures From(lead + (pattern + rest), pattern) == Some(pattern + rest)
  {
    var s := lead + (pattern + rest);
    FromSkips(s, pattern, |lead|);
    assert s[|lead|..] == pattern + rest && pattern <= pattern + rest;
  }

  /** An occurrence that starts before the label ends inside it, so what follows the label does not matter. */
  lemma NoEarlierLabel(lead: Text, rest: Text, i: nat)
    requires i < |lead|
    ensures Label() <= (lead + Label())[i..] <==> Label() <= (lead + (Label() + rest))[i..]
  {
    var a, b := (lead + Label())[i..], (lead + (Label() + rest))[i..];
    assert |a| > 6 && |b| > 6 && a[..6] == b[..6];
    assert Label() <= a <==> Label() == a[..6];
    assert Label() <= b <==> Label() == b[..6];
  }

  /** The server reads every text of the grammar and takes the keys it spells, if there are at most 256. */
  lemma GrammarIsRead(d: Document)
    requires DocumentOk(d) && NoNul(DocumentText(d))
    ensures ParseKeys(DocumentText(d)) == if |d.items| <= 256 then Some(Keys(d.items)) else None
  {
    var text := DocumentText(d);
    NoNulToCutAt(text);
    hide UpToNul, From, ParseArray, ArrayText;
    var value := d.before + ArrayText(d);
    var rest := d.gap + ([COLON] + value);
    assert text == d.lead + (LABEL + rest);
    forall i | 0 <= i < |d.lead|
      ensures !(LABEL <= (d.lead + (LABEL + rest))[i..])
    {
      NoEarlierLabel(d.lead, rest, i);
    }
    FindsFirst(d.lead, LABEL, rest);
    NoColonBefore(d.gap, value);
    assert LABEL + rest == (LABEL + d.gap) + ([COLON] + value);
    FindsFirst(LABEL + d.gap, [COLON], value);
    assert ([COLON] + value)[1..] == value;
    assert ArrayText(d)[0] == OPEN by {
      ArrayStarts(d);
    }
    SkipsBlank(d.before, ArrayText(d));
    ReadsArray(d);
  }

  lemma ArrayStarts(d: Document)
    ensures |ArrayText(d)| > 0 && ArrayText(d)[0] == OPEN
  {
  }

  lemma NoColonBefore(gap: Text, value: Text)
    requires COLON !in gap
    ensures var s := (LABEL + gap) + ([COLON] + value);
            forall i :: 0 <= i < |LABEL + gap| ==> !([COLON] <= s[i..])
  {
    var s := (LABEL + gap) + ([COLON] + value);
    forall i | 0 <= i < |LABEL + gap|
      ensures !([COLON] <= s[i..])
    {
      assert s[i..][0] == s[i] == (LABEL + gap)[i];
      assert i >= 6 ==> (LABEL + gap)[i] == gap[i - 6];
    }
  }

  // ---------------------------------------------------------------- writing what the server reads

  lemma {:induction false} BlankOf(s: Text) returns (b: Text)
    ensures Blank(b) && s == b + Skip(s)
  {
    b := [];
    if |s| > 0 && IsSpace(s[0]) {
      var more := BlankOf(s[1..]);
      b := [s[0]] + more;
    }
  }

  lemma GlyphOf(s: Text) returns (g: Glyph)
    requires ParseChar(s).Got? && s[0] != QUOTE
    ensures GlyphOk(g) && GlyphMeans(g) == ParseChar(s).value && s == GlyphText(g) + ParseChar(s).rest
  {
    g := if s[0] == BACKSLASH then Escaped(s[1]) else Itself(s[0]);
  }

  lemma {:induction false} StringOf(s: Text) returns (gs: seq<Glyph>)
    requires ParseString(s).Got?
    ensures forall i :: 0 <= i < |gs| ==> GlyphOk(gs[i])
    ensures Meaning(gs) == ParseString(s).value && s == Spelled(gs) + ([QUOTE] + ParseString(s).rest)
    decreases |s|
  {
    hide GlyphText, GlyphMeans, GlyphOk, ParseChar;
    gs := [];
    if s[0] != QUOTE {
      var g := GlyphOf(s);
      var rest := ParseChar(s).rest;
      var more := StringOf(rest);
      gs := [g] + more;
      assert gs[1..] == more;
      assert Meaning(gs) == [GlyphMeans(g)] + Meaning(more);
      assert s == GlyphText(g) + (Spelled(more) + ([QUOTE] + ParseString(rest).rest));
    }
  }

  lemma ItemOf(s: Text) returns (item: Item)
    requires ParseItem(s).Got?
    ensures ItemOk(item) && item.next == []
    ensures Meaning(item.glyphs) == ParseItem(s).value && s == ItemText(item) + ParseItem(s).rest
  {
    hide ParseString, Spelled, Meaning, Skip;
    var glyphs := StringOf(s[1..]);
    var rest := ParseString(s[1..]).rest;
    var after := BlankOf(rest);
    item := Item(glyphs, after, []);
    assert s == [QUOTE] + s[1..];
  }

  lemma {:induction false} ItemsOf(s: Text, n: nat) returns (items: seq<Item>, trail: Text)
    requires ParseItems(s, n).Some?
    ensures |items| > 0 && n + |items| <= 256 && forall i :: 0 <= i < |items| ==> ItemOk(items[i])
    ensures Keys(items) == ParseItems(s, n).value && s == ItemsText(items) + trail
    decreases |s|
  {
    hide ParseItem, ItemText, Meaning, Skip;
    var item := ItemOf(s);
    var rest := ParseItem(s).rest;
    if rest[0] == CLOSE {
      items, trail := [item], rest[1..];
      assert Keys(items) == [Meaning(item.glyphs)];
      assert rest == [CLOSE] + trail;
    } else {
      var next := BlankOf(rest[1..]);
      var more, end := ItemsOf(Skip(rest[1..]), n + 1);
      var first := item.(next := next);
      assert ItemText(first) == ItemText(item) && ItemOk(first) by {
        NextDoesNotMatter(item, next);
      }
      items, trail := [first] + more, end;
      assert items[1..] == more;
      assert Keys(items) == [Meaning(first.glyphs)] + Keys(more);
      assert rest == [COMMA] + (next + (ItemsText(more) + end));
      assert ItemsText(items) == ItemText(first) + ([COMMA] + (next + ItemsText(more)));
    }
  }

  lemma NextDoesNotMatter(item: Item, next: Text)
    requires ItemOk(item) && Blank(next)
    ensures ItemText(item.(next := next)) == ItemText(item) && ItemOk(item.(next := next))
  {
  }

  /** Where the first occurrence of a pattern splits a text. */
  lemma {:induction false} FirstOf(s: Text, pattern: Text) returns (lead: Text)
    requires From(s, pattern).Some?
    ensures s == lead + From(s, pattern).value && forall i :: 0 <= i < |lead| ==> !(pattern <= s[i..])
  {
    lead := [];
    if !(pattern <= s) {
      var more := FirstOf(s[1..], pattern);
      lead := [s[0]] + more;
      forall i | 0 <= i < |lead|
        ensures !(pattern <= s[i..])
      {
        assert s[0..] == s;
        assert i > 0 ==> s[i..] == s[1..][i - 1..];
      }
    }
  }

  lemma ArrayOf(s: Text) returns (inside: Text, items: seq<Item>, trail: Text)
    requires ParseArray(s).Some?
    ensures Blank(inside) && |items| <= 256 && forall i :: 0 <= i < |items| ==> ItemOk(items[i])
    ensures Keys(items) == ParseArray(s).value && s == ArrayText(Document([], [], [], inside, items, trail))
  {
    hide ParseItems, ItemsText, Skip;
    var t := Skip(s[1..]);
    inside := BlankOf(s[1..]);
    assert s == [OPEN] + (inside + t);
    if |t| > 0 && t[0] == CLOSE {
      items, trail := [], t[1..];
      assert t == [CLOSE] + trail;
    } else {
      items, trail := ItemsOf(t, 0);
    }
  }

  /** Between label and colon there is no other colon. */
  lemma GapOf(field: Text, lead: Text, rest: Text) returns (gap: Text)
    requires LABEL <= field && field == lead + ([COLON] + rest)
    requires forall i :: 0 <= i < |lead| ==> !([COLON] <= field[i..])
    ensures COLON !in gap && field == LABEL + (gap + ([COLON] + rest))
  {
    assert field[|lead|] == COLON;
    assert forall i :: 0 <= i < 6 ==> field[i] == LABEL[i] && field[i] != COLON;
    gap := lead[6..];
    forall i | 0 <= i < |gap|
      ensures gap[i] != COLON
    {
      var t := field[i + 6..];
      assert t[0] == field[i + 6] == gap[i] && ([COLON] <= t <==> t[0] == COLON);
    }
    assert lead == LABEL + gap;
  }

  /** Whatever the server takes is a text of the grammar, and the keys are those it spells. */
  lemma ReadIsInTheGrammar(body: Text) returns (d: Document)
    requires ParseKeys(body).Some?
    ensures DocumentOk(d) && UpToNul(body) == DocumentText(d)
    ensures |d.items| <= 256 && ParseKeys(body) == Some(Keys(d.items))
  {
    hide UpToNul, From, ParseArray, Skip;
    var text := UpToNul(body);
    var lead := FirstOf(text, LABEL);
    var field := From(text, LABEL).value;
    var front := FirstOf(field, [COLON]);
    var value := From(field, [COLON]).value;
    assert value == [COLON] + value[1..];
    var gap := GapOf(field, front, value[1..]);
    var before := BlankOf(value[1..]);
    var list := Skip(value[1..]);
    var inside, items, trail := ArrayOf(list);
    d := Document(lead, gap, before, inside, items, trail);
    assert ArrayText(d) == list;
    assert text == lead + (LABEL + (gap + ([COLON] + (before + list))));
    forall i | 0 <= i < |lead|
      ensures !(Label() <= (lead + Label())[i..])
    {
      NoEarlierLabel(lead, gap + ([COLON] + (before + list)), i);
    }
  }

  /** Control characters without a letter of their own are written as \u and four hexadecimal digits. */
  lemma ControlsAreHexadecimal(c: byte)
    requires c < 32 && c !in {9, 10, 13}
    ensures var e := EscapeByte(c);
            && |e| == 6 && e[..4] == ['\\' as int, 'u' as int, '0' as int, '0' as int]
            && e[4] as char == "0123456789abcdef"[c / 16] && e[5] as char == "0123456789abcdef"[c % 16]
  {
  }
}
