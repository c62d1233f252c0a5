/**
 * Ticket notification e-mail: the display width of a text (with an abstract
 * East Asian width classifier and a memo), the two-column layout of the
 * ticket properties table, the Cc list parsing and diffing, and the filter
 * that drops the updater from the recipients.
 */
module Notification {
  import opened Wrappers
  import opened Strings

  /** `TicketNotifyEmail.COLS`: the width of the mail body. */
  const Cols: int := 75

  // ---------------------------------------------------------------------------
  // Text width

  /** The East Asian width classes a character can have. */
  datatype EastAsianWidth = Wide | Fullwidth | Ambiguous | Halfwidth | Narrow | Neutral

  /** The width of an ambiguous character: 2 under the 'double' setting, else 1. */
  function AmbiguousWidth(setting: string): (w: nat)
    ensures w == 1 || w == 2
    ensures w == 2 <==> setting == "double"
  {
    if setting == "double" then 2 else 1
  }

  function CharWidth(e: EastAsianWidth, ambiwidth: nat): nat {
    if e == Wide || e == Fullwidth then 2 else if e == Ambiguous then ambiwidth else 1
  }

  /** The display width of `text`: 2 per wide or fullwidth character, `ambiwidth` per ambiguous one, 1 for the others. */
  function TextWidth(text: string, classify: char -> EastAsianWidth, ambiwidth: nat): (w: nat)
    ensures 1 <= ambiwidth <= 2 ==> |text| <= w <= 2 * |text|
  {
    if text == [] then 0
    else TextWidth(text[..|text| - 1], classify, ambiwidth) + CharWidth(classify(text[|text| - 1]), ambiwidth)
  }

  /** The width of two texts put together is the sum of their widths. */
  lemma {:induction false} TextWidthConcat(a: string, b: string, classify: char -> EastAsianWidth, ambiwidth: nat)
    ensures TextWidth(a + b, classify, ambiwidth) == TextWidth(a, classify, ambiwidth) + TextWidth(b, classify, ambiwidth)
    decreases |b|
  {
    if b == [] {
      assert a + b == a;
    } else {
      var init := b[..|b| - 1];
      TextWidthConcat(a, init, classify, ambiwidth);
      assert (a + b)[..|a + b| - 1] == a + init;
      assert (a + b)[|a + b| - 1] == b[|b| - 1];
    }
  }

  /** A text of narrow, halfwidth and neutral characters is as wide as it is long. */
  lemma {:induction false} NarrowTextWidth(text: string, classify: char -> EastAsianWidth, ambiwidth: nat)
    requires forall i :: 0 <= i < |text| ==> classify(text[i]) in {Narrow, Halfwidth, Neutral}
    ensures TextWidth(text, classify, ambiwidth) == |text|
    decreases |text|
  {
    if text != [] {
      var init := text[..|text| - 1];
      assert forall i :: 0 <= i < |init| ==> init[i] == text[i];
      NarrowTextWidth(init, classify, ambiwidth);
    }
  }

  /** The state of one notification mail that the width computation uses. */
  class TicketNotifyEmail {
    /** The `[notification] ambiguous_char_width` setting. */
    const ambiguousCharWidth: string
    /** `unicodedata.east_asian_width`. */
    const classify: char -> EastAsianWidth
    /** The text width memo, `text_widths`. */
    var textWidths: map<string, nat>

    /** Every memo entry is the width of its text. */
    ghost predicate Valid()
      reads this
    {
      forall t :: t in textWidths ==> textWidths[t] == TextWidth(t, classify, AmbiguousWidth(ambiguousCharWidth))
    }

    constructor(setting: string, classify: char -> EastAsianWidth)
      ensures ambiguousCharWidth == setting && this.classify == classify && textWidths == map[]
      ensures Valid()
    {
      ambiguousCharWidth := setting;
      this.classify := classify;
      textWidths := map[];
    }

    /** `get_text_width`: the memoized width, or the width computed character by character and then memoized. */
    method GetTextWidth(text: string) returns (width: nat)
      requires Valid()
      modifies this
      ensures Valid()
      ensures width == TextWidth(text, classify, AmbiguousWidth(ambiguousCharWidth))
      ensures text in old(textWidths) ==> textWidths == old(textWidths)
      ensures text !in old(textWidths) ==> textWidths == old(textWidths)[text := width]
    {
      var ambiwidth := AmbiguousWidth(ambiguousCharWidth);
      if text in textWidths {
        return textWidths[text];
      }
      width := 0;
      for k := 0 to |text|
        invariant width == TextWidth(text[..k], classify, ambiwidth)
      {
        assert text[..k + 1][..k] == text[..k];
        var eaw := classify(text[k]);
        if eaw == Wide || eaw == Fullwidth {
          width := width + 2;
        } else if eaw == Ambiguous {
          width := width + ambiwidth;
        } else {
          width := width + 1;
        }
      }
      assert text[..|text|] == text;
      textWidths := textWidths[text := width];
    }

    /**
     * The column widths of the properties table: for each field that is shown
     * in the table (not a textarea, set on the ticket, no newline in its
     * value), in turn the left and the right column; entry 2c is the widest
     * caption of column c and entry 2c+1 its widest value.
     */
    method ColumnWidths(fields: seq<Field>, values: map<string, Option<string>>, obfuscate: string -> string)
      returns (width: seq<nat>)
      requires Valid()
      modifies this
      ensures Valid()
      ensures width == Widths(Counted(Listed(fields), values, obfuscate), classify, AmbiguousWidth(ambiguousCharWidth))
      ensures forall t :: t in old(textWidths) ==> t in textWidths
    {
      var listed := Listed(fields);
      width := [0, 0, 0, 0];
      ghost var cells: seq<Cell> := [];
      var i := 0;
      for j := 0 to |listed|
        invariant Valid()
        invariant cells == Counted(listed[..j], values, obfuscate)
        invariant i == |cells|
        invariant width == Widths(cells, classify, AmbiguousWidth(ambiguousCharWidth))
        invariant forall t :: t in old(textWidths) ==> t in textWidths
      {
        var f := listed[j];
        assert listed[..j + 1] == listed[..j] + [f];
        CountedSnoc(listed[..j], f, values, obfuscate);
        if f.fieldType == "textarea" || f.name !in values {
          continue;
        }
        var fval := values[f.name].GetOr("");
        if '\n' in fval {
          continue;
        }
        if f.name in ["owner", "reporter"] {
          fval := obfuscate(fval);
        }
        var idx := 2 * (i % 2);
        ghost var before := width;
        var captionWidth := GetTextWidth(f.caption);
        width := width[idx := Max(captionWidth, width[idx])];
        var valueWidth := GetTextWidth(fval);
        width := width[idx + 1 := Max(valueWidth, width[idx + 1])];
        ghost var c := Cell(f.caption, fval);
        WidensColumn(cells, c, before, width, captionWidth, valueWidth, classify, AmbiguousWidth(ambiguousCharWidth));
        cells := cells + [c];
        i := i + 1;
      }
      assert listed[..|listed|] == listed;
    }

    /**
     * The width part of `format_props`: the column widths, the left and right
     * widths once negotiated, and the separator line.
     */
    method PropsLayout(fields: seq<Field>, values: map<string, Option<string>>, obfuscate: string -> string)
      returns (widthL: int, widthR: int, sep: string)
      requires Valid()
      modifies this
      ensures Valid()
      ensures var w := Widths(Counted(Listed(fields), values, obfuscate), classify, AmbiguousWidth(ambiguousCharWidth));
        (widthL, widthR) == NegotiateWidths(w[0], w[1], w[2], w[3])
      ensures sep == Separator(widthL, widthR)
    {
      var width := ColumnWidths(fields, values, obfuscate);
      widthL, widthR := NegotiateWidths(width[0], width[1], width[2], width[3]).0, NegotiateWidths(width[0], width[1], width[2], width[3]).1;
      sep := Separator(widthL, widthR);
    }
  }

  // ---------------------------------------------------------------------------
  // The properties table

  /** A ticket field: its name, its type and its caption. */
  datatype Field = Field(name: string, fieldType: string, caption: string)

  /** A caption and value counted for the column widths. */
  datatype Cell = Cell(caption: string, value: string)

  function Max(a: nat, b: nat): nat { if a < b then b else a }
  function Min(a: int, b: int): int { if a < b then a else b }

  /** The fields listed in the table: all but summary, cc, time and changetime. */
  function Listed(fields: seq<Field>): (r: seq<Field>)
    ensures forall f :: f in r <==> f in fields && f.name !in ["summary", "cc", "time", "changetime"]
  {
    if fields == [] then []
    else
      var rest := Listed(fields[1..]);
      if fields[0].name in ["summary", "cc", "time", "changetime"] then rest else [fields[0]] + rest
  }

  /** The cells counted for the widths: fields that are not textareas, are set, and have no newline in their value. */
  function Counted(fields: seq<Field>, values: map<string, Option<string>>, obfuscate: string -> string): seq<Cell> {
    if fields == [] then []
    else
      var init := Counted(fields[..|fields| - 1], values, obfuscate);
      var f := fields[|fields| - 1];
      if f.fieldType == "textarea" || f.name !in values || '\n' in values[f.name].GetOr("") then init
      else
        var v := values[f.name].GetOr("");
        init + [Cell(f.caption, if f.name in ["owner", "reporter"] then obfuscate(v) else v)]
  }

  /** Entry `e` of the widths measures captions when `e` is even and values when it is odd. */
  function CellText(c: Cell, e: int): string {
    if e % 2 == 0 then c.caption else c.value
  }

  /** A field either adds no cell or adds the cell of its caption and its (possibly obfuscated) value. */
  lemma CountedSnoc(fields: seq<Field>, f: Field, values: map<string, Option<string>>, obfuscate: string -> string)
    ensures f.fieldType == "textarea" || f.name !in values || '\n' in values[f.name].GetOr("") ==>
      Counted(fields + [f], values, obfuscate) == Counted(fields, values, obfuscate)
    ensures !(f.fieldType == "textarea" || f.name !in values || '\n' in values[f.name].GetOr("")) ==>
      var v := values[f.name].GetOr("");
      Counted(fields + [f], values, obfuscate)
        == Counted(fields, values, obfuscate) + [Cell(f.caption, if f.name in ["owner", "reporter"] then obfuscate(v) else v)]
  {
    assert (fields + [f])[..|fields|] == fields;
  }

  /** Entry `e` of the column widths after the given cells: the widest matching text among the cells of column e / 2 (cell k is in column k % 2). */
  function ColumnWidth(cells: seq<Cell>, e: int, classify: char -> EastAsianWidth, ambiwidth: nat): nat
  {
    if cells == [] then 0
    else
      var n := |cells| - 1;
      var w := ColumnWidth(cells[..n], e, classify, ambiwidth);
      if n % 2 == e / 2 then Max(TextWidth(CellText(cells[n], e), classify, ambiwidth), w) else w
  }

  /** The four column widths after the given cells. */
  function Widths(cells: seq<Cell>, classify: char -> EastAsianWidth, ambiwidth: nat): (w: seq<nat>)
    ensures |w| == 4 && forall e :: 0 <= e < 4 ==> w[e] == ColumnWidth(cells, e, classify, ambiwidth)
  {
    seq(4, e => ColumnWidth(cells, e, classify, ambiwidth))
  }

  /** One more cell widens the two entries of its column to its caption and value widths. */
  lemma ColumnWidthSnoc(cells: seq<Cell>, c: Cell, e: int, classify: char -> EastAsianWidth, ambiwidth: nat)
    ensures ColumnWidth(cells + [c], e, classify, ambiwidth)
      == if |cells| % 2 == e / 2 then Max(TextWidth(CellText(c, e), classify, ambiwidth), ColumnWidth(cells, e, classify, ambiwidth))
         else ColumnWidth(cells, e, classify, ambiwidth)
  {
    assert (cells + [c])[..|cells|] == cells;
  }

  /** The two updates of the loop of `format_props` turn the widths of the cells into those of one more cell. */
  lemma WidensColumn(cells: seq<Cell>, c: Cell, before: seq<nat>, after: seq<nat>, cw: nat, vw: nat,
                     classify: char -> EastAsianWidth, ambiwidth: nat)
    requires before == Widths(cells, classify, ambiwidth)
    requires cw == TextWidth(c.caption, classify, ambiwidth) && vw == TextWidth(c.value, classify, ambiwidth)
    requires var idx := 2 * (|cells| % 2);
      after == before[idx := Max(cw, before[idx])][idx + 1 := Max(vw, before[idx + 1])]
    ensures after == Widths(cells + [c], classify, ambiwidth)
  {
    var idx := 2 * (|cells| % 2);
    assert idx == 0 || idx == 2;
    forall e | 0 <= e < 4
      ensures after[e] == ColumnWidth(cells + [c], e, classify, ambiwidth)
    {
      ColumnWidthSnoc(cells, c, e, classify, ambiwidth);
      if e == idx {
        assert CellText(c, e) == c.caption;
      } else if e == idx + 1 {
        assert CellText(c, e) == c.value;
      } else {
        assert |cells| % 2 != e / 2;
      }
    }
  }

  /** Entry `e` is at least as wide as the matching text of every cell in column e / 2. */
  lemma {:induction false} WidthsBound(cells: seq<Cell>, k: int, e: int, classify: char -> EastAsianWidth, ambiwidth: nat)
    requires 0 <= k < |cells| && 0 <= e < 4 && k % 2 == e / 2
    ensures TextWidth(CellText(cells[k], e), classify, ambiwidth) <= ColumnWidth(cells, e, classify, ambiwidth)
    decreases |cells|
  {
    var n := |cells| - 1;
    var init := cells[..n];
    assert init + [cells[n]] == cells;
    ColumnWidthSnoc(init, cells[n], e, classify, ambiwidth);
    if k < n {
      WidthsBound(init, k, e, classify, ambiwidth);
      assert init[k] == cells[k];
    }
  }

  /** Entry `e` is 0 or the width of the matching text of a cell in column e / 2; `k` is that cell, or -1. */
  lemma {:induction false} WidthsAttained(cells: seq<Cell>, e: int, classify: char -> EastAsianWidth, ambiwidth: nat)
    returns (k: int)
    requires 0 <= e < 4
    ensures k == -1 ==> ColumnWidth(cells, e, classify, ambiwidth) == 0
    ensures k != -1 ==> 0 <= k < |cells| && k % 2 == e / 2
    ensures k != -1 ==> ColumnWidth(cells, e, classify, ambiwidth) == TextWidth(CellText(cells[k], e), classify, ambiwidth)
    decreases |cells|
  {
    if cells == [] {
      return -1;
    }
    var n := |cells| - 1;
    var init := cells[..n];
    assert init + [cells[n]] == cells;
    ColumnWidthSnoc(init, cells[n], e, classify, ambiwidth);
    k := WidthsAttained(init, e, classify, ambiwidth);
    if k != -1 {
      assert init[k] == cells[k];
    }
    if n % 2 == e / 2 && ColumnWidth(init, e, classify, ambiwidth) <= TextWidth(CellText(cells[n], e), classify, ambiwidth) {
      k := n;
    }
  }

  /**
   * The widths are the column maxima: entry 2c is the widest caption and
   * entry 2c+1 the widest value among the cells of column c, 0 for a column
   * without cells.
   */
  lemma WidthsAreMaxima(cells: seq<Cell>, classify: char -> EastAsianWidth, ambiwidth: nat)
    ensures var w := Widths(cells, classify, ambiwidth);
      forall e, k :: 0 <= e < 4 && 0 <= k < |cells| && k % 2 == e / 2 ==>
        TextWidth(CellText(cells[k], e), classify, ambiwidth) <= w[e]
    ensures var w := Widths(cells, classify, ambiwidth);
      forall e :: 0 <= e < 4 ==>
        w[e] == 0 || exists k :: 0 <= k < |cells| && k % 2 == e / 2 && w[e] == TextWidth(CellText(cells[k], e), classify, ambiwidth)
  {
    var w := Widths(cells, classify, ambiwidth);
    forall e, k | 0 <= e < 4 && 0 <= k < |cells| && k % 2 == e / 2
      ensures TextWidth(CellText(cells[k], e), classify, ambiwidth) <= w[e]
    {
      WidthsBound(cells, k, e, classify, ambiwidth);
    }
    forall e | 0 <= e < 4
      ensures w[e] == 0 || exists k :: 0 <= k < |cells| && k % 2 == e / 2 && w[e] == TextWidth(CellText(cells[k], e), classify, ambiwidth)
    {
      var k := WidthsAttained(cells, e, classify, ambiwidth);
    }
  }

  /**
   * The left and right widths of the table (each the caption and value widths
   * of its column plus 5); when they do not fit in the mail together with the
   * '|' between them, both get half the width if both are over half or a caption
   * is over a quarter, and otherwise the wider side gets at most two thirds and
   * the other the rest.
   */
  function NegotiateWidths(w0: nat, w1: nat, w2: nat, w3: nat): (r: (int, int))
  {
    var widthL := w0 + w1 + 5;
    var widthR := w2 + w3 + 5;
    var halfCols := (Cols - 1) / 2;
    if widthL + widthR + 1 > Cols then
      if (widthL > halfCols && widthR > halfCols) || (w0 > halfCols / 2 || w2 > halfCols / 2) then (halfCols, halfCols)
      else if widthL > widthR then
        var l := Min((Cols - 1) * 2 / 3, widthL);
        (l, Cols - l - 1)
      else
        var r := Min((Cols - 1) * 2 / 3, widthR);
        (Cols - r - 1, r)
    else (widthL, widthR)
  }

  /**
   * A table that fits is left as it is; one that does not is narrowed to
   * exactly the mail width, each side between 25 and 49 columns.
   */
  lemma NegotiatedWidthsFit(w0: nat, w1: nat, w2: nat, w3: nat)
    ensures var (l, r) := NegotiateWidths(w0, w1, w2, w3);
      var widthL := w0 + w1 + 5;
      var widthR := w2 + w3 + 5;
      && (widthL + widthR + 1 <= Cols ==> l == widthL && r == widthR)
      && (widthL + widthR + 1 > Cols ==> l + r + 1 == Cols && 25 <= l <= 49 && 25 <= r <= 49)
  {
  }

  /** The half and two-thirds limits of the negotiation for a 75-column mail. */
  lemma NegotiationConstants()
    ensures (Cols - 1) / 2 == 37 && (Cols - 1) / 2 / 2 == 18 && (Cols - 1) * 2 / 3 == 49
  {
  }

  /** `n * '-'`. */
  function Dashes(n: int): (r: string)
    ensures |r| == if n < 0 then 0 else n
    ensures forall i :: 0 <= i < |r| ==> r[i] == '-'
    decreases n
  {
    if n <= 0 then [] else "-" + Dashes(n - 1)
  }

  /** The separator line: `l` dashes, '+', `r` dashes. */
  function Separator(l: int, r: int): (s: string)
    ensures l >= 0 && r >= 0 ==> |s| == l + r + 1 && s[l] == '+'
    ensures l >= 0 && r >= 0 ==> forall i :: 0 <= i < |s| && i != l ==> s[i] == '-'
  {
    Dashes(l) + "+" + Dashes(r)
  }

  // ---------------------------------------------------------------------------
  // Cc lists

  /** The words that contain '@'. */
  function Addresses(words: seq<string>): (r: seq<string>)
    ensures forall x :: x in r <==> x in words && '@' in x
  {
    if words == [] then []
    else
      var rest := Addresses(words[1..]);
      if '@' in words[0] then [words[0]] + rest else rest
  }

  /** Filtering keeps the input order: the addresses of a concatenation are those of each part, in turn. */
  lemma {:induction false} AddressesAppend(a: seq<string>, b: seq<string>)
    ensures Addresses(a + b) == Addresses(a) + Addresses(b)
    decreases |a|
  {
    if a == [] {
      assert a + b == b;
    } else {
      assert (a + b)[0] == a[0];
      assert (a + b)[1..] == a[1..] + b;
      AddressesAppend(a[1..], b);
    }
  }

  /** A single word is kept exactly when it holds '@'. */
  lemma AddressesOne(w: string)
    ensures Addresses([w]) == if '@' in w then [w] else []
  {
  }

  /** `parse_cc`: commas count as spaces; the words that contain '@', in order. */
  function ParseCc(txt: string): (r: seq<string>)
    ensures forall x :: x in r ==> '@' in x && ',' !in x && NoSpace(x) && x != []
    ensures forall x :: x in r <==> x in SplitWhitespace(ReplaceChar(txt, ',', ' ')) && '@' in x
  {
    var words := SplitWhitespace(ReplaceChar(txt, ',', ' '));
    var r := Addresses(words);
    assert forall x :: x in r ==> ',' !in x by {
      forall x | x in r
        ensures ',' !in x
      {
        NoCommaInWords(txt, x);
      }
    }
    r
  }

  /** Two Cc texts joined by a space give the addresses of the first, in order, then those of the second. */
  lemma ParseCcJoin(t1: string, t2: string)
    ensures ParseCc(t1 + " " + t2) == ParseCc(t1) + ParseCc(t2)
  {
    var s1, s2 := ReplaceChar(t1, ',', ' '), ReplaceChar(t2, ',', ' ');
    assert ReplaceChar(t1 + " " + t2, ',', ' ') == s1 + " " + s2;
    SplitWhitespaceJoin(s1, s2);
    AddressesAppend(SplitWhitespace(s1), SplitWhitespace(s2));
  }

  /** After commas become spaces, no word of the text holds a comma. */
  lemma NoCommaInWords(txt: string, x: string)
    requires x in SplitWhitespace(ReplaceChar(txt, ',', ' '))
    ensures ',' !in x
  {
    var s := ReplaceChar(txt, ',', ' ');
    assert forall i :: 0 <= i < |s| ==> s[i] != ',';
    WordsFromText(s, x);
  }

  /** Every character of a word of `s` is a character of `s`. */
  lemma {:induction false} WordsFromText(s: string, x: string)
    requires x in SplitWhitespace(s)
    ensures forall c :: c in x ==> c in s
    decreases |s|
  {
    if s != [] {
      if IsSpace(s[0]) {
        WordsFromText(s[1..], x);
      } else {
        var k := WordEnd(s);
        if x != s[..k] {
          WordsFromText(s[k..], x);
        }
      }
    }
  }

  /** The non-empty entries of `xs` that are not in `other`, in order. */
  function OnlyIn(xs: seq<string>, other: seq<string>): (r: seq<string>)
    ensures forall x :: x in r <==> x in xs && x != "" && x !in other
    ensures |r| <= |xs|
  {
    if xs == [] then []
    else
      var rest := OnlyIn(xs[1..], other);
      if xs[0] != "" && xs[0] !in other then [xs[0]] + rest else rest
  }

  /** The comprehension keeps the input order: a concatenation gives the entries of each part, in turn. */
  lemma {:induction false} OnlyInAppend(a: seq<string>, b: seq<string>, other: seq<string>)
    ensures OnlyIn(a + b, other) == OnlyIn(a, other) + OnlyIn(b, other)
    decreases |a|
  {
    if a == [] {
      assert a + b == b;
    } else {
      assert (a + b)[0] == a[0];
      assert (a + b)[1..] == a[1..] + b;
      OnlyInAppend(a[1..], b, other);
    }
  }

  /** A single entry is kept exactly when it is non-empty and not in the other list. */
  lemma OnlyInOne(x: string, other: seq<string>)
    ensures OnlyIn([x], other) == if x != "" && x !in other then [x] else []
  {
  }

  /** Nothing is left of a list whose entries all appear in the other list. */
  lemma {:induction false} OnlyInCovered(xs: seq<string>, other: seq<string>)
    requires forall x :: x in xs ==> x in other
    ensures OnlyIn(xs, other) == []
    decreases |xs|
  {
    if xs != [] {
      assert xs[0] in other;
      OnlyInCovered(xs[1..], other);
    }
  }

  function MapSeq(f: string -> string, xs: seq<string>): (r: seq<string>)
    ensures |r| == |xs| && forall i :: 0 <= i < |xs| ==> r[i] == f(xs[i])
  {
    if xs == [] then [] else [f(xs[0])] + MapSeq(f, xs[1..])
  }

  /**
   * `diff_cc`: both values split into addresses (`split` stands for the
   * address separator pattern), then the obfuscated new addresses that were
   * not there before and the old ones that are gone, each in its input order.
   */
  function DiffCc(before: string, after: string, split: string -> seq<string>, obfuscate: string -> string)
    : (r: (seq<string>, seq<string>))
    ensures r.0 == MapSeq(obfuscate, OnlyIn(split(after), split(before)))
    ensures r.1 == MapSeq(obfuscate, OnlyIn(split(before), split(after)))
  {
    var oldcc := split(before);
    var newcc := split(after);
    (MapSeq(obfuscate, OnlyIn(newcc, oldcc)), MapSeq(obfuscate, OnlyIn(oldcc, newcc)))
  }

  /** Mapping keeps the order: the images of a concatenation are those of each part, in turn. */
  lemma MapSeqAppend(f: string -> string, a: seq<string>, b: seq<string>)
    ensures MapSeq(f, a + b) == MapSeq(f, a) + MapSeq(f, b)
  {
    var l, r := MapSeq(f, a + b), MapSeq(f, a) + MapSeq(f, b);
    assert |l| == |r|;
    forall i | 0 <= i < |l|
      ensures l[i] == r[i]
    {
      if i < |a| {
        assert (a + b)[i] == a[i];
      } else {
        assert (a + b)[i] == b[i - |a|];
      }
    }
  }

  /**
   * Both sides of the diff keep their input order: cut the new (or old)
   * addresses anywhere, and the added (or removed) ones of the first part
   * come before those of the second.
   */
  lemma DiffCcInOrder(before: string, after: string, split: string -> seq<string>, obfuscate: string -> string,
                      i: nat, j: nat)
    requires i <= |split(after)| && j <= |split(before)|
    ensures var (added, removed) := DiffCc(before, after, split, obfuscate);
      var newcc, oldcc := split(after), split(before);
      && added == MapSeq(obfuscate, OnlyIn(newcc[..i], oldcc)) + MapSeq(obfuscate, OnlyIn(newcc[i..], oldcc))
      && removed == MapSeq(obfuscate, OnlyIn(oldcc[..j], newcc)) + MapSeq(obfuscate, OnlyIn(oldcc[j..], newcc))
  {
    var newcc, oldcc := split(after), split(before);
    assert newcc == newcc[..i] + newcc[i..];
    assert oldcc == oldcc[..j] + oldcc[j..];
    OnlyInAppend(newcc[..i], newcc[i..], oldcc);
    OnlyInAppend(oldcc[..j], oldcc[j..], newcc);
    MapSeqAppend(obfuscate, OnlyIn(newcc[..i], oldcc), OnlyIn(newcc[i..], oldcc));
    MapSeqAppend(obfuscate, OnlyIn(oldcc[..j], newcc), OnlyIn(oldcc[j..], newcc));
  }

  /** Without obfuscation, an address is never both added and removed, and each side lists only real changes. */
  lemma DiffCcDisjoint(before: string, after: string, split: string -> seq<string>)
    ensures var (added, removed) := DiffCc(before, after, split, x => x);
      && (forall x :: x in added <==> x in split(after) && x != "" && x !in split(before))
      && (forall x :: x in removed <==> x in split(before) && x != "" && x !in split(after))
      && (forall x :: !(x in added && x in removed))
  {
    var oldcc := split(before);
    var newcc := split(after);
    var a := OnlyIn(newcc, oldcc);
    var b := OnlyIn(oldcc, newcc);
    assert MapSeq(x => x, a) == a;
    assert MapSeq(x => x, b) == b;
  }

  /** Nothing changes when the Cc field keeps its value. */
  lemma DiffCcSame(cc: string, split: string -> seq<string>, obfuscate: string -> string)
    ensures DiffCc(cc, cc, split, obfuscate) == ([], [])
  {
    OnlyInCovered(split(cc), split(cc));
  }

  // ---------------------------------------------------------------------------
  // Recipients

  /** The To list without empty entries and without the updater. */
  function WithoutUpdater(to: seq<Option<string>>, updater: Option<string>): (r: seq<Option<string>>)
    ensures forall x :: x in r <==> x in to && HasText(x) && x != updater
    ensures |r| <= |to|
  {
    if to == [] then []
    else
      var rest := WithoutUpdater(to[1..], updater);
      if HasText(to[0]) && to[0] != updater then [to[0]] + rest else rest
  }

  /**
   * The end of `get_recipients`: with `always_notify_updater` the updater, if
   * any, is added to To; without it, the updater and empty entries are
   * removed, unless the updater is the reporter or the owner and the
   * reporter or owner is always notified.
   */
  function FilterRecipients(to: seq<Option<string>>, updater: Option<string>, reporter: Option<string>, owner: Option<string>,
                            notifyReporter: bool, notifyOwner: bool, notifyUpdater: bool): (r: seq<Option<string>>)
    ensures notifyUpdater ==> r == to + (if HasText(updater) then [updater] else [])
    ensures !notifyUpdater && !(notifyReporter && updater == reporter) && !(notifyOwner && updater == owner) ==>
      r == WithoutUpdater(to, updater)
    ensures !notifyUpdater && ((notifyReporter && updater == reporter) || (notifyOwner && updater == owner)) ==> r == to
  {
    if !notifyUpdater then
      var filterOut := !(notifyReporter && updater == reporter) && !(notifyOwner && updater == owner);
      if filterOut then WithoutUpdater(to, updater) else to
    else if HasText(updater) then to + [updater]
    else to
  }

  /** Filtering out the updater keeps the order of the others: filtering again changes nothing. */
  lemma {:induction false} WithoutUpdaterIdempotent(to: seq<Option<string>>, updater: Option<string>)
    ensures WithoutUpdater(WithoutUpdater(to, updater), updater) == WithoutUpdater(to, updater)
    decreases |to|
  {
    if to != [] {
      WithoutUpdaterIdempotent(to[1..], updater);
      var rest := WithoutUpdater(to[1..], updater);
      if HasText(to[0]) && to[0] != updater {
        assert ([to[0]] + rest)[1..] == rest;
      }
    }
  }

  /** A filtered To list never names the updater and has no empty entry. */
  lemma UpdaterSuppressed(to: seq<Option<string>>, updater: Option<string>, reporter: Option<string>, owner: Option<string>,
                          notifyReporter: bool, notifyOwner: bool)
    requires !(notifyReporter && updater == reporter) && !(notifyOwner && updater == owner)
    ensures var r := FilterRecipients(to, updater, reporter, owner, notifyReporter, notifyOwner, false);
      updater !in r && forall x :: x in r ==> HasText(x)
  {
  }

  /** The cc, reporter and owner columns of the ticket row. */
  datatype TicketRow = TicketRow(cc: Option<string>, reporter: Option<string>, owner: Option<string>)

  /** The updater: the author of the latest change or, without changes, the reporter. */
  function Updater(row: Option<TicketRow>, latestAuthor: Option<Option<string>>): Option<string> {
    if latestAuthor.Some? then latestAuthor.value
    else if row.Some? then row.value.reporter
    else None
  }

  /**
   * `get_recipients`: Cc gets the previous Cc addresses and the words of the
   * ticket's cc field; To gets the reporter and the owner when they are always
   * notified and the distinct change authors when the updater is; then the
   * updater filter applies. `changeAuthors` and `latestAuthor` stand for the
   * two `ticket_change` queries, `reporter` and `owner` for the values held
   * when the ticket row is missing.
   */
  function GetRecipients(prevCc: seq<string>, row: Option<TicketRow>, changeAuthors: seq<Option<string>>,
                         latestAuthor: Option<Option<string>>, reporter: Option<string>, owner: Option<string>,
                         notifyReporter: bool, notifyOwner: bool, notifyUpdater: bool)
    : (r: (seq<Option<string>>, seq<string>))
    ensures row.None? ==> r.1 == prevCc
    ensures row.Some? ==> r.1 == prevCc + (if HasText(row.value.cc) then SplitWhitespace(ReplaceChar(row.value.cc.value, ',', ' ')) else [])
    ensures notifyUpdater && HasText(Updater(row, latestAuthor)) ==> Updater(row, latestAuthor) in r.0
    ensures notifyUpdater ==> forall a :: a in changeAuthors ==> a in r.0
    ensures !notifyUpdater ==> forall a :: a in r.0 ==> row.Some? && (a == row.value.reporter || a == row.value.owner)
    ensures row.Some? && notifyReporter && HasText(row.value.reporter) ==> row.value.reporter in r.0
    ensures row.Some? && notifyOwner && HasText(row.value.owner) ==> row.value.owner in r.0
  {
    var rep := if row.Some? then row.value.reporter else reporter;
    var own := if row.Some? then row.value.owner else owner;
    var cc := if row.Some? && HasText(row.value.cc) then SplitWhitespace(ReplaceChar(row.value.cc.value, ',', ' ')) else [];
    var fromRow := if row.Some? then (if notifyReporter then [row.value.reporter] else []) + (if notifyOwner then [row.value.owner] else []) else [];
    var to := fromRow + (if notifyUpdater then changeAuthors else []);
    (FilterRecipients(to, Updater(row, latestAuthor), rep, own, notifyReporter, notifyOwner, notifyUpdater), prevCc + cc)
  }

  /**
   * Unless the updater is always notified, or is the reporter or the owner
   * and they are, the updater is not sent the mail and no empty address is
   * left in To.
   */
  lemma GetRecipientsSuppressesUpdater(prevCc: seq<string>, row: TicketRow, changeAuthors: seq<Option<string>>,
                                       latestAuthor: Option<Option<string>>, reporter: Option<string>, owner: Option<string>,
                                       notifyReporter: bool, notifyOwner: bool)
    requires var u := Updater(Some(row), latestAuthor);
      !(notifyReporter && u == row.reporter) && !(notifyOwner && u == row.owner)
    ensures var (to, _) := GetRecipients(prevCc, Some(row), changeAuthors, latestAuthor, reporter, owner, notifyReporter, notifyOwner, false);
      Updater(Some(row), latestAuthor) !in to && forall a :: a in to ==> HasText(a)
  {
    var fromRow := (if notifyReporter then [row.reporter] else []) + (if notifyOwner then [row.owner] else []);
    assert fromRow + [] == fromRow;
    UpdaterSuppressed(fromRow, Updater(Some(row), latestAuthor), row.reporter, row.owner, notifyReporter, notifyOwner);
  }
}
