/**
 * `ensureNumericValues`: the project data read back from the browser store is
 * walked chapter by chapter and line by line; on every main table line the
 * quantity and the unit price, when present, are turned into numbers with
 * `Number(x)`, and the total price is recomputed as their product. The objects
 * are changed in place and the same object is handed back.
 */
module NumericValues {
  import opened Cells

  /** A JavaScript value as far as the conversion looks at it; `JUndefined` is also an absent field. */
  datatype JsVal = JUndefined | JNull | JBool(b: bool) | JNum(n: Num) | JStr(s: string)

  /** `Number(v)`: text goes through the string grammar, so text that is not a number gives NaN, not 0. */
  function ToNumber(v: JsVal): Num
  {
    match v
    case JUndefined => NaN
    case JNull => Fin(0.0)
    case JBool(b) => if b then Fin(1.0) else Fin(0.0)
    case JNum(n) => n
    case JStr(s) => StringToNumber(s)
  }

  /** `if (x !== undefined) x = Number(x)`. */
  function Converted(v: JsVal): (r: JsVal)
    ensures v == JUndefined <==> r == JUndefined
    ensures v != JUndefined ==> r.JNum? && r.n == ToNumber(v)
  {
    if v == JUndefined then v else JNum(ToNumber(v))
  }

  /** `a * b`: both operands go through `Number` first. */
  function Mul(a: JsVal, b: JsVal): Num
  {
    Times(ToNumber(a), ToNumber(b))
  }

  /** Converting twice converts once, and the conversion does not change the number a value stands for. */
  lemma {:induction false} ConvertedIdempotent(v: JsVal)
    ensures Converted(Converted(v)) == Converted(v)
    ensures ToNumber(Converted(v)) == ToNumber(v)
  {
  }

  /** `Number` of blank text and of null is 0; a product with an absent operand is NaN. */
  lemma {:induction false} ToNumberExamples()
    ensures ToNumber(JStr("")) == Fin(0.0)
    ensures ToNumber(JNull) == Fin(0.0)
    ensures Mul(JUndefined, JNum(Fin(3.0))) == NaN
  {
  }

  /** `Number` of text that is not a number is NaN, not 0. */
  lemma {:induction false} ToNumberOfWord()
    ensures ToNumber(JStr("abc")) == NaN
  {
    StringToNumberOfWord("abc");
  }

  // ---------------------------------------------------------------------
  // The data as values: what the store holds and what the conversion makes of it.
  // ---------------------------------------------------------------------

  /** The three fields of a main table line the conversion touches. */
  datatype LineFields = LineFields(quantity: JsVal, unitPrice: JsVal, totalPrice: JsVal)

  /** A line of a chapter; `None` when `line.mainTableLine` is missing or falsy. */
  datatype LineValue = LineValue(mainTableLine: Option<LineFields>)

  /** A chapter; `None` when `chapter.lines` is missing or not an array. */
  datatype ChapterValue = ChapterValue(lines: Option<seq<LineValue>>)

  /**
   * One main table line after the conversion: the total price is the product
   * of the converted fields, that is of the numbers the initial fields stand for.
   */
  function ConvertFields(f: LineFields): (g: LineFields)
    ensures g.quantity == Converted(f.quantity) && g.unitPrice == Converted(f.unitPrice)
    ensures g.totalPrice == JNum(Times(ToNumber(f.quantity), ToNumber(f.unitPrice)))
  {
    ConvertedIdempotent(f.quantity);
    ConvertedIdempotent(f.unitPrice);
    var q, u := Converted(f.quantity), Converted(f.unitPrice);
    LineFields(q, u, JNum(Mul(q, u)))
  }

  /** Converting a converted line changes nothing. */
  lemma {:induction false} ConvertFieldsIdempotent(f: LineFields)
    ensures ConvertFields(ConvertFields(f)) == ConvertFields(f)
  {
    ConvertedIdempotent(f.quantity);
    ConvertedIdempotent(f.unitPrice);
  }

  function ConvertLine(l: LineValue): LineValue
  {
    if l.mainTableLine.None? then l else LineValue(Some(ConvertFields(l.mainTableLine.value)))
  }

  function ConvertChapter(c: ChapterValue): ChapterValue
  {
    if c.lines.None? then c else ChapterValue(Some(seq(|c.lines.value|, j requires 0 <= j < |c.lines.value| => ConvertLine(c.lines.value[j]))))
  }

  /** The conversion of a whole `chapters` field; a missing or non-array field stays as it is. */
  function ConvertChapters(chs: Option<seq<ChapterValue>>): Option<seq<ChapterValue>>
  {
    if chs.None? then chs else Some(seq(|chs.value|, i requires 0 <= i < |chs.value| => ConvertChapter(chs.value[i])))
  }

  /**
   * What the conversion promises: the same chapters and lines in the same
   * order; a line without a main table line is untouched; on every main table
   * line the total price is the product of the (converted) quantity and unit
   * price, and a field that was absent stays absent.
   */
  lemma {:induction false} ConvertChaptersMeaning(chs: Option<seq<ChapterValue>>)
    ensures chs.None? <==> ConvertChapters(chs).None?
    ensures chs.Some? ==> |ConvertChapters(chs).value| == |chs.value|
    ensures chs.Some? ==> forall i :: 0 <= i < |chs.value| ==>
      var c, c' := chs.value[i], ConvertChapters(chs).value[i];
      (c.lines.None? <==> c'.lines.None?) &&
      (c.lines.Some? ==> (|c'.lines.value| == |c.lines.value| &&
        forall j :: 0 <= j < |c.lines.value| ==>
          var l, l' := c.lines.value[j], c'.lines.value[j];
          (l.mainTableLine.None? ==> l' == l) &&
          (l.mainTableLine.Some? ==> (l'.mainTableLine.Some? &&
            l'.mainTableLine.value.totalPrice == JNum(Mul(l'.mainTableLine.value.quantity, l'.mainTableLine.value.unitPrice)) &&
            (l.mainTableLine.value.quantity == JUndefined <==> l'.mainTableLine.value.quantity == JUndefined) &&
            (l.mainTableLine.value.unitPrice == JUndefined <==> l'.mainTableLine.value.unitPrice == JUndefined)))))
  {
  }

  /** Running the conversion on its own output changes nothing. */
  lemma {:induction false} ConvertChaptersIdempotent(chs: Option<seq<ChapterValue>>)
    ensures ConvertChapters(ConvertChapters(chs)) == ConvertChapters(chs)
  {
    if chs.Some? {
      var once := ConvertChapters(chs).value;
      var twice := ConvertChapters(ConvertChapters(chs)).value;
      forall i | 0 <= i < |chs.value|
        ensures twice[i] == once[i]
      {
        var c := once[i];
        if c.lines.Some? {
          forall j | 0 <= j < |c.lines.value|
            ensures ConvertLine(c.lines.value[j]) == c.lines.value[j]
          {
            var l := c.lines.value[j];
            if l.mainTableLine.Some? {
              var f := chs.value[i].lines.value[j].mainTableLine.value;
              ConvertedIdempotent(f.quantity);
              ConvertedIdempotent(f.unitPrice);
            }
          }
          assert ConvertChapter(c).lines.value == c.lines.value;
        }
      }
      assert twice == once;
    }
  }

  // ---------------------------------------------------------------------
  // The data as objects, which the conversion changes in place.
  // ---------------------------------------------------------------------

  /** A main table line object; only its three converted fields are modelled. */
  class MainTableLine {
    var quantity: JsVal
    var unitPrice: JsVal
    var totalPrice: JsVal

    constructor(f: LineFields)
      ensures quantity == f.quantity && unitPrice == f.unitPrice && totalPrice == f.totalPrice
    {
      quantity, unitPrice, totalPrice := f.quantity, f.unitPrice, f.totalPrice;
    }
  }

  /** A line object; the conversion never replaces its main table line. */
  class Line {
    const mainTableLine: Option<MainTableLine>

    constructor(m: Option<MainTableLine>)
      ensures mainTableLine == m
    {
      mainTableLine := m;
    }
  }

  /** A chapter object; its `lines` array is only read. */
  class ChapterEntry {
    const lines: Option<seq<Line>>

    constructor(ls: Option<seq<Line>>)
      ensures lines == ls
    {
      lines := ls;
    }
  }

  /** The project data object; its `chapters` array is only read. */
  class ProjectDoc {
    const chapters: Option<seq<ChapterEntry>>

    constructor(chs: Option<seq<ChapterEntry>>)
      ensures chapters == chs
    {
      chapters := chs;
    }
  }

  /** The main table lines under some line objects. */
  ghost function MainLinesOf(ls: seq<Line>): set<MainTableLine>
  {
    set l | l in ls && l.mainTableLine.Some? :: l.mainTableLine.value
  }

  lemma {:induction false} MainLinesOfPush(ls: seq<Line>, l: Line)
    ensures MainLinesOf(ls + [l]) == MainLinesOf(ls) + (if l.mainTableLine.Some? then {l.mainTableLine.value} else {})
  {
  }

  /** The main table lines under one chapter. */
  ghost function ChapterLines(c: ChapterEntry): set<MainTableLine>
  {
    if c.lines.None? then {} else MainLinesOf(c.lines.value)
  }

  /** Every main table line reachable from the project data: what the conversion may change. */
  ghost function Reachable(d: ProjectDoc): set<MainTableLine>
  {
    if d.chapters.None? then {}
    else set c, m | c in d.chapters.value && m in ChapterLines(c) :: m
  }

  /** A main table line carries the conversion of the fields it had in the initial state. */
  ghost predicate IsConversionOf(m: MainTableLine, f: LineFields)
    reads m
  {
    LineFields(m.quantity, m.unitPrice, m.totalPrice) == ConvertFields(f)
  }

  /** The body of the inner `forEach`: one main table line converted in place. */
  method ConvertInPlace(mtl: MainTableLine)
    modifies mtl
    ensures LineFields(mtl.quantity, mtl.unitPrice, mtl.totalPrice) == ConvertFields(old(LineFields(mtl.quantity, mtl.unitPrice, mtl.totalPrice)))
  {
    if mtl.quantity != JUndefined {
      mtl.quantity := JNum(ToNumber(mtl.quantity));
    }
    if mtl.unitPrice != JUndefined {
      mtl.unitPrice := JNum(ToNumber(mtl.unitPrice));
    }
    mtl.totalPrice := JNum(Mul(mtl.quantity, mtl.unitPrice));
  }

  /** The state of the walk: lines already visited carry their conversion, the others their initial fields. */
  ghost predicate Walked(all: set<MainTableLine>, visited: set<MainTableLine>, initial: map<MainTableLine, LineFields>)
    reads all
  {
    visited <= all && all <= initial.Keys &&
    forall m :: m in all ==>
      if m in visited then IsConversionOf(m, initial[m])
      else LineFields(m.quantity, m.unitPrice, m.totalPrice) == initial[m]
  }

  /** Visiting a line keeps the walk's state; a line met twice (shared by two lines) is converted to the same fields. */
  lemma {:induction false} WalkedVisit(visited: set<MainTableLine>, initial: map<MainTableLine, LineFields>, m: MainTableLine,
                                       before: LineFields, after: LineFields)
    requires m in initial
    requires m in visited ==> before == ConvertFields(initial[m])
    requires m !in visited ==> before == initial[m]
    requires after == ConvertFields(before)
    ensures after == ConvertFields(initial[m])
  {
    if m in visited {
      ConvertFieldsIdempotent(initial[m]);
    }
  }

  /** The inner `forEach` over the lines of one chapter. */
  method ConvertChapterLines(c: ChapterEntry, ghost all: set<MainTableLine>, ghost visited0: set<MainTableLine>, ghost initial: map<MainTableLine, LineFields>)
    returns (ghost visited: set<MainTableLine>)
    requires c.lines.Some? && ChapterLines(c) <= all
    requires Walked(all, visited0, initial)
    modifies all
    ensures Walked(all, visited, initial) && visited == visited0 + ChapterLines(c)
  {
    var lines := c.lines.value;
    visited := visited0;
    for j := 0 to |lines|
      invariant Walked(all, visited, initial)
      invariant visited == visited0 + MainLinesOf(lines[..j])
    {
      assert lines[..j + 1] == lines[..j] + [lines[j]];
      MainLinesOfPush(lines[..j], lines[j]);
      if lines[j].mainTableLine.Some? {
        var mtl := lines[j].mainTableLine.value;
        assert mtl in MainLinesOf(lines);
        ghost var before := LineFields(mtl.quantity, mtl.unitPrice, mtl.totalPrice);
        ConvertInPlace(mtl);
        WalkedVisit(visited, initial, mtl, before, LineFields(mtl.quantity, mtl.unitPrice, mtl.totalPrice));
        visited := visited + {mtl};
      }
    }
    assert lines[..|lines|] == lines;
  }

  /**
   * `ensureNumericValues`: data without a `chapters` array comes back as it is
   * and nothing changes; otherwise every reachable main table line ends up
   * with the conversion of its initial fields, in particular a total price that
   * is the product of its quantity and unit price. The same object is returned.
   */
  method EnsureNumericValues(projectData: Option<ProjectDoc>) returns (r: Option<ProjectDoc>)
    modifies if projectData.Some? then Reachable(projectData.value) else {}
    ensures r == projectData
    ensures projectData.Some? ==> forall m :: m in Reachable(projectData.value) ==>
      IsConversionOf(m, old(LineFields(m.quantity, m.unitPrice, m.totalPrice)))
  {
    if projectData.None? || projectData.value.chapters.None? {
      return projectData;
    }
    var d := projectData.value;
    var chapters := d.chapters.value;
    ghost var all := Reachable(d);
    ghost var initial := map m | m in all :: LineFields(m.quantity, m.unitPrice, m.totalPrice);
    ghost var visited: set<MainTableLine> := {};
    for i := 0 to |chapters|
      invariant Walked(all, visited, initial)
      invariant forall k :: 0 <= k < i ==> ChapterLines(chapters[k]) <= visited
    {
      if chapters[i].lines.Some? {
        assert ChapterLines(chapters[i]) <= all;
        visited := ConvertChapterLines(chapters[i], all, visited, initial);
      }
    }
    assert all <= visited;
    r := projectData;
  }

  // ---------------------------------------------------------------------
  // Objects and values side by side.
  // ---------------------------------------------------------------------

  /** The fields of a line object are those of a line value. */
  ghost predicate LineMirrors(l: Line, v: LineValue)
    reads if l.mainTableLine.Some? then {l.mainTableLine.value} else {}
  {
    (l.mainTableLine.Some? <==> v.mainTableLine.Some?) &&
    (l.mainTableLine.Some? ==>
      var m := l.mainTableLine.value;
      LineFields(m.quantity, m.unitPrice, m.totalPrice) == v.mainTableLine.value)
  }

  ghost predicate ChapterMirrors(c: ChapterEntry, v: ChapterValue)
    reads ChapterLines(c)
  {
    (c.lines.Some? <==> v.lines.Some?) &&
    (c.lines.Some? ==> (|c.lines.value| == |v.lines.value| &&
      forall j :: 0 <= j < |c.lines.value| ==> LineMirrors(c.lines.value[j], v.lines.value[j])))
  }

  /** The object graph under `d` holds exactly the data `chs`. */
  ghost predicate Mirrors(d: ProjectDoc, chs: Option<seq<ChapterValue>>)
    reads Reachable(d)
  {
    (d.chapters.Some? <==> chs.Some?) &&
    (d.chapters.Some? ==> (|d.chapters.value| == |chs.value| &&
      forall i :: 0 <= i < |chs.value| ==> ChapterMirrors(d.chapters.value[i], chs.value[i])))
  }
}
