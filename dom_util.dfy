/** The label canvas of `DomUtil.createTextCanvas` (src/utils/dom.util.ts): the text is
    split greedily into rows, character by character, using the canvas's text
    measurement, and each row is drawn centred, 12 units below the previous one. */
module DomUtil {
  import opened Wrappers
  import opened Seqs

  /** `ctx.measureText(s).width`, computed by the browser from the font: a parameter
      of the model. */
  type Measure = string -> real

  /** The row-building loop's state after reading `text`: the closed rows and the
      row being accumulated (`row` and `temp`). A row is closed, before the next
      character is appended, when it measures more than `limit`. */
  function Wrap(text: string, limit: real, measure: Measure): (seq<string>, string)
    decreases |text|
  {
    if text == [] then ([], "")
    else
      var acc := Wrap(text[..|text| - 1], limit, measure);
      var c := text[|text| - 1];
      if measure(acc.1) > limit then (acc.0 + [acc.1], [c]) else (acc.0, acc.1 + [c])
  }

  /** The rows drawn on a canvas `width` wide: the closed rows and the last partial one. */
  function Rows(text: string, width: real, measure: Measure): seq<string> {
    var acc := Wrap(text, width - 12.0, measure);
    acc.0 + [acc.1]
  }

  /** The row-splitting loop of `createTextCanvas`. */
  method WrapRows(text: string, width: real, measure: Measure) returns (row: seq<string>)
    ensures row == Rows(text, width, measure)
  {
    var temp := "";
    row := [];
    var a := 0;
    while a < |text|
      invariant 0 <= a <= |text|
      invariant (row, temp) == Wrap(text[..a], width - 12.0, measure)
    {
      ghost var next := text[..a + 1];
      assert next[..|next| - 1] == text[..a] && next[|next| - 1] == text[a];
      if measure(temp) > width - 12.0 {
        row := row + [temp];
        temp := "";
      }
      assert temp == "" ==> temp + [text[a]] == [text[a]];
      temp := temp + [text[a]];
      a := a + 1;
    }
    assert text[..a] == text;
    row := row + [temp];
  }

  /** Every proper non-empty prefix of `r` measures at most `limit`: `r` was never
      closed while it was being accumulated. */
  predicate Accumulated(r: string, limit: real, measure: Measure) {
    forall k :: 1 <= k < |r| ==> measure(r[..k]) <= limit
  }

  lemma {:induction false} WrapFacts(text: string, limit: real, measure: Measure)
    ensures Flatten(Wrap(text, limit, measure).0) + Wrap(text, limit, measure).1 == text
    ensures forall j :: 0 <= j < |Wrap(text, limit, measure).0| ==> measure(Wrap(text, limit, measure).0[j]) > limit
    ensures forall j :: 0 <= j < |Wrap(text, limit, measure).0| ==> Accumulated(Wrap(text, limit, measure).0[j], limit, measure)
    ensures Accumulated(Wrap(text, limit, measure).1, limit, measure)
    ensures forall j :: 1 <= j < |Wrap(text, limit, measure).0| ==> Wrap(text, limit, measure).0[j] != ""
    ensures |Wrap(text, limit, measure).0| > 0 || text != [] ==> Wrap(text, limit, measure).1 != ""
    decreases |text|
  {
    if text != [] {
      var prefix := text[..|text| - 1];
      var c := text[|text| - 1];
      WrapFacts(prefix, limit, measure);
      var acc := Wrap(prefix, limit, measure);
      assert text == prefix + [c];
      if measure(acc.1) > limit {
        FlattenAppend(acc.0, [acc.1]);
        assert Flatten([acc.1]) == acc.1;
        assert Flatten(acc.0 + [acc.1]) + [c] == text;
        assert |[c]| == 1;
      } else {
        var t := acc.1 + [c];
        forall k | 1 <= k < |t|
          ensures measure(t[..k]) <= limit
        {
          if k < |acc.1| {
            assert t[..k] == acc.1[..k];
          } else {
            assert t[..k] == acc.1;
          }
        }
        assert Flatten(acc.0) + t == text;
      }
    }
  }

  /** The rows are the greedy split of the text: concatenated in order they give
      the text back; there is at least one; every row but the last was closed
      because it measured more than `width - 12`, and no row was closed any
      earlier; only the first row can be empty, and the last one is empty only
      for empty text. */
  lemma RowsFacts(text: string, width: real, measure: Measure)
    ensures var rows := Rows(text, width, measure);
      && Flatten(rows) == text
      && |rows| >= 1
      && (forall j :: 0 <= j < |rows| - 1 ==> measure(rows[j]) > width - 12.0)
      && (forall j :: 0 <= j < |rows| ==> Accumulated(rows[j], width - 12.0, measure))
      && (forall j :: 1 <= j < |rows| ==> rows[j] != "")
      && (text != "" ==> rows[|rows| - 1] != "")
  {
    var acc := Wrap(text, width - 12.0, measure);
    WrapFacts(text, width - 12.0, measure);
    FlattenAppend(acc.0, [acc.1]);
    assert Flatten([acc.1]) == acc.1;
  }

  /** A `fillText(text, x, y)` call on the canvas. */
  datatype TextCall = FillText(text: string, x: real, y: real)

  /** What a canvas with a 2D context shows: the background fill, the text style
      and the text calls in order. */
  datatype Painting = Painting(background: string, fontSize: real, textColor: string, texts: seq<TextCall>)

  /** A `canvas` element of the given size, painted when it had a 2D context. */
  datatype Canvas = Canvas(width: real, height: real, painting: Option<Painting>)

  /** The drawing loop: row `b` is drawn centred at `width / 2`, at `y = 12 * (b + 1)`. */
  method DrawRows(rows: seq<string>, width: real) returns (texts: seq<TextCall>)
    ensures |texts| == |rows|
    ensures forall b :: 0 <= b < |rows| ==>
      texts[b].text == rows[b] && texts[b].x == width / 2.0 && texts[b].y == 12.0 * (b + 1) as real
  {
    texts := [];
    var b := 0;
    while b < |rows|
      invariant 0 <= b <= |rows|
      invariant |texts| == b
      invariant forall i :: 0 <= i < b ==>
        texts[i].text == rows[i] && texts[i].x == width / 2.0 && texts[i].y == 12.0 * (i + 1) as real
    {
      texts := texts + [FillText(rows[b], width / 2.0, 0.0 + (b + 1) as real * 12.0)];
      b := b + 1;
    }
  }

  /** The defaults of `createTextCanvas`'s optional parameters. */
  const DefaultBackground: string := "rgba(255, 255, 255, 0)"
  const DefaultTextColor: string := "rgba(0, 0, 0, 1)"
  const DefaultSize: real := 64.0
  const DefaultFontSize: real := 12.0

  /** `DomUtil.createTextCanvas`. `hasContext` is whether `getContext('2d')` gave a
      context: without one the canvas is returned unpainted. The line spacing is 12
      whatever `fontSize` is. */
  method CreateTextCanvas(text: string, hasContext: bool, measure: Measure,
                          backgroundColor: string, color: string, width: real, height: real, fontSize: real)
    returns (canvas: Canvas)
    ensures canvas.width == width && canvas.height == height
    ensures canvas.painting.None? <==> !hasContext
    ensures canvas.painting.Some? ==>
      var p := canvas.painting.value;
      && p.background == backgroundColor && p.textColor == color && p.fontSize == fontSize
      && |p.texts| == |Rows(text, width, measure)|
      && forall b :: 0 <= b < |p.texts| ==>
           p.texts[b] == FillText(Rows(text, width, measure)[b], width / 2.0, 12.0 * (b + 1) as real)
  {
    canvas := Canvas(width, height, None);
    if hasContext {
      var rows := WrapRows(text, width, measure);
      var texts := DrawRows(rows, width);
      canvas := canvas.(painting := Some(Painting(backgroundColor, fontSize, color, texts)));
    }
  }
}

/** The older `DomUtil.createTextCanvas` (src/utils/domUtil.ts): the same row split
    and placement, with a fixed background, text colour and 12-unit font. */
module LegacyDomUtil {
  import opened Wrappers
  import DomUtil

  const Background: string := "rgba(170, 92, 64, 0.7)"
  const TextColor: string := "#fff"

  method CreateTextCanvas(text: string, hasContext: bool, measure: DomUtil.Measure, width: real, height: real)
    returns (canvas: DomUtil.Canvas)
    ensures canvas.width == width && canvas.height == height
    ensures canvas.painting.None? <==> !hasContext
    ensures canvas.painting.Some? ==>
      var p := canvas.painting.value;
      && p.background == Background && p.textColor == TextColor && p.fontSize == 12.0
      && |p.texts| == |DomUtil.Rows(text, width, measure)|
      && forall b :: 0 <= b < |p.texts| ==>
           p.texts[b] == DomUtil.FillText(DomUtil.Rows(text, width, measure)[b], width / 2.0, 12.0 * (b + 1) as real)
  {
    canvas := DomUtil.Canvas(width, height, None);
    if hasContext {
      var rows := DomUtil.WrapRows(text, width, measure);
      var texts := DomUtil.DrawRows(rows, width);
      canvas := canvas.(painting := Some(DomUtil.Painting(Background, 12.0, TextColor, texts)));
    }
  }
}
