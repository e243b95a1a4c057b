/**
 * The backend's full-project endpoints: reading a project with its chapters,
 * lines and details, and synchronising the stored rows with the tree the
 * client sends back.
 */
module ProjectController {
  import opened Cells
  import opened ProjectData
  import opened ProjectRepository

  // ---------------------------------------------------------------------
  // What the client sends.
  // ---------------------------------------------------------------------

  /** A detail as sent: `id` is `None` for a new detail; the row's own `id` field is not read. */
  datatype SentDetail = SentDetail(id: Option<int>, detail: DetailLine)

  /** A main table line as sent, with its details. */
  datatype SentLine = SentLine(id: Option<int>, mainTableLine: MainLine, details: seq<SentDetail>)

  /**
   * A chapter as sent: its own temporary id and its parent's (the two
   * non-persistent fields of the chapter entity), the row and its lines.
   */
  datatype SentChapter = SentChapter(id: Option<int>, tempId: Option<string>, parentTempId: Option<string>, chapter: Chapter, lines: seq<SentLine>)

  /** The project fields the sync copies. */
  datatype SentProject = SentProject(name: string, userId: int, companyId: int)

  ghost predicate Distinct(s: seq<int>)
  {
    forall i, j :: 0 <= i < j < |s| ==> s[i] != s[j]
  }

  // ---------------------------------------------------------------------
  // getFullProject
  // ---------------------------------------------------------------------

  function DetailIds(ds: seq<DetailLine>): (r: seq<int>)
    ensures |r| == |ds| && forall j :: 0 <= j < |ds| ==> r[j] == ds[j].id
  {
    seq(|ds|, j requires 0 <= j < |ds| => ds[j].id)
  }

  function LineIds(ls: seq<LineWithDetails>): (r: seq<int>)
    ensures |r| == |ls| && forall j :: 0 <= j < |ls| ==> r[j] == ls[j].mainTableLine.id
  {
    seq(|ls|, j requires 0 <= j < |ls| => ls[j].mainTableLine.id)
  }

  function ChapterIds(cs: seq<ChapterWithLines>): (r: seq<int>)
    ensures |r| == |cs| && forall j :: 0 <= j < |cs| ==> r[j] == cs[j].chapter.id
  {
    seq(|cs|, j requires 0 <= j < |cs| => cs[j].chapter.id)
  }

  /** A line's detail list holds each stored detail of the line once, and nothing else. */
  ghost predicate DetailsExact(details: map<nat, DetailLine>, l: int, ds: seq<DetailLine>)
  {
    Distinct(DetailIds(ds)) &&
    (forall d: int :: d in DetailsOfLine(details, l) <==> d in DetailIds(ds)) &&
    (forall j :: 0 <= j < |ds| ==> ds[j].id in details && details[ds[j].id] == ds[j])
  }

  /** A chapter's line list holds each stored line of the chapter once, each with its exact details. */
  ghost predicate LinesExact(lines: map<nat, MainLine>, details: map<nat, DetailLine>, c: int, ls: seq<LineWithDetails>)
  {
    Distinct(LineIds(ls)) &&
    (forall l: int :: l in LinesOfChapter(lines, c) <==> l in LineIds(ls)) &&
    (forall j :: 0 <= j < |ls| ==>
      ls[j].mainTableLine.id in lines && lines[ls[j].mainTableLine.id] == ls[j].mainTableLine &&
      DetailsExact(details, ls[j].mainTableLine.id, ls[j].details))
  }

  /** The chapter list holds each stored chapter of the project once, each with its exact lines. */
  ghost predicate ChaptersExact(db: Database, pid: int, cs: seq<ChapterWithLines>)
    reads db
  {
    Distinct(ChapterIds(cs)) &&
    (forall k: int :: k in ProjectChapterIds(db.chapters, pid) <==> k in ChapterIds(cs)) &&
    (forall i :: 0 <= i < |cs| ==>
      cs[i].chapter.id in db.chapters && db.chapters[cs[i].chapter.id] == cs[i].chapter &&
      LinesExact(db.lines, db.details, cs[i].chapter.id, cs[i].lines))
  }

  /** The details of a line, read from the table. */
  method ReadDetails(details: map<nat, DetailLine>, l: nat) returns (ds: seq<DetailLine>)
    requires forall k :: k in details ==> details[k].id == k
    ensures DetailsExact(details, l, ds)
  {
    var ids := Enumerate(DetailsOfLine(details, l));
    ds := seq(|ids|, j requires 0 <= j < |ids| => details[ids[j]]);
    assert DetailIds(ds) == ids;
  }

  /** The lines of a chapter with their details, read from the tables. */
  method ReadLines(lines: map<nat, MainLine>, details: map<nat, DetailLine>, c: nat) returns (ls: seq<LineWithDetails>)
    requires forall k :: k in lines ==> lines[k].id == k
    requires forall k :: k in details ==> details[k].id == k
    ensures LinesExact(lines, details, c, ls)
  {
    var ids := Enumerate(LinesOfChapter(lines, c));
    ls := [];
    for j := 0 to |ids|
      invariant |ls| == j
      invariant forall q :: 0 <= q < j ==> ls[q].mainTableLine == lines[ids[q]] && DetailsExact(details, ids[q], ls[q].details)
    {
      var ds := ReadDetails(details, ids[j]);
      ls := ls + [LineWithDetails(lines[ids[j]], ds)];
    }
    assert LineIds(ls) == ids;
  }

  /**
   * `getFullProject`: an unknown project is an error (`orElseThrow`); otherwise
   * the project row and every chapter of the project once, each with exactly its
   * stored lines, each with exactly its stored details.
   */
  method GetFullProject(db: Database, id: int) returns (r: Option<ProjectFull>)
    requires db.Valid()
    ensures r.None? <==> id !in db.projects
    ensures r.Some? ==> r.value.project == db.projects[id] && ChaptersExact(db, id, r.value.chapters)
  {
    if id !in db.projects {
      return None;
    }
    var ids := Enumerate(ProjectChapterIds(db.chapters, id));
    var cs: seq<ChapterWithLines> := [];
    for i := 0 to |ids|
      invariant |cs| == i
      invariant forall q :: 0 <= q < i ==> cs[q].chapter == db.chapters[ids[q]] && LinesExact(db.lines, db.details, ids[q], cs[q].lines)
    {
      var ls := ReadLines(db.lines, db.details, ids[i]);
      cs := cs + [ChapterWithLines(db.chapters[ids[i]], ls)];
    }
    assert ChapterIds(cs) == ids;
    r := Some(ProjectFull(db.projects[id], cs));
  }

  // ---------------------------------------------------------------------
  // syncProject, first loop: chapters stored without a parent.
  // ---------------------------------------------------------------------

  /** The ids sent are pairwise different and below the table's counter: ids the client read back. */
  ghost predicate DistinctSent(ids: seq<Option<int>>, next: int)
  {
    (forall i, j :: 0 <= i < j < |ids| && ids[i].Some? ==> ids[i] != ids[j]) &&
    (forall i :: 0 <= i < |ids| && ids[i].Some? ==> ids[i].value < next)
  }

  /** The ids sent with some records, in order, as `id` reads them. */
  function SentIds<T>(xs: seq<T>, id: T -> Option<int>): (r: seq<Option<int>>)
    ensures |r| == |xs| && forall m :: 0 <= m < |xs| ==> r[m] == id(xs[m])
  {
    seq(|xs|, m requires 0 <= m < |xs| => id(xs[m]))
  }

  function DetailId(sd: SentDetail): Option<int> { sd.id }

  function LineId(sl: SentLine): Option<int> { sl.id }

  function ChapterId(sc: SentChapter): Option<int> { sc.id }

  /** The row the first loop stores for a sent chapter: in the project, without a parent. */
  function Placed(sc: SentChapter, k: nat, pid: int): Chapter
  {
    sc.chapter.(id := k, projectId := pid, parentId := None)
  }

  /** `tempIdToRealId` after the first loop: each temporary id to the id its chapter was stored under; a later chapter wins. */
  function TempIds(sent: seq<SentChapter>, saved: seq<nat>): (m: map<string, nat>)
    requires |saved| == |sent|
    ensures forall t :: t in m ==> m[t] in saved
    ensures forall i :: 0 <= i < |sent| && sent[i].tempId.Some? ==> sent[i].tempId.value in m
  {
    if sent == [] then map[]
    else
      var n := |sent| - 1;
      var m := TempIds(sent[..n], saved[..n]);
      assert forall i :: 0 <= i < n ==> sent[..n][i] == sent[i];
      if sent[n].tempId.Some? then m[sent[n].tempId.value := saved[n]] else m
  }

  /** A temporary id maps to the id of the last chapter that carries it. */
  lemma {:induction false} TempIdsLast(sent: seq<SentChapter>, saved: seq<nat>, i: int)
    requires |saved| == |sent| && 0 <= i < |sent| && sent[i].tempId.Some?
    requires forall j :: i < j < |sent| ==> sent[j].tempId != sent[i].tempId
    ensures TempIds(sent, saved)[sent[i].tempId.value] == saved[i]
  {
    var n := |sent| - 1;
    if i < n {
      assert sent[..n][i] == sent[i];
      assert forall j :: i < j < n ==> sent[..n][j] == sent[j];
      TempIdsLast(sent[..n], saved[..n], i);
    }
  }

  /** One more chapter stored: the temporary ids gain its own. */
  lemma {:induction false} TempIdsStep(sent: seq<SentChapter>, saved: seq<nat>, i: int, k: nat)
    requires 0 <= i < |sent| && |saved| == i
    ensures TempIds(sent[..i + 1], saved + [k]) ==
      var m := TempIds(sent[..i], saved); if sent[i].tempId.Some? then m[sent[i].tempId.value := k] else m
  {
    assert sent[..i + 1][..i] == sent[..i];
    assert (saved + [k])[..i] == saved;
  }

  /** Under distinct sent ids, the id a chapter is stored under differs from those of the chapters before it. */
  lemma {:induction false} SavedIdNew(sent: seq<SentChapter>, saved: seq<nat>, i: int, k: nat, next0: nat)
    requires 0 <= i < |sent| && |saved| == i
    requires DistinctSent(SentIds(sent, ChapterId), next0)
    requires forall q :: 0 <= q < i ==> (sent[q].id.Some? && saved[q] == sent[q].id.value) || next0 <= saved[q]
    requires (sent[i].id.Some? && k == sent[i].id.value) || (forall q :: 0 <= q < i ==> saved[q] < k)
    requires Distinct(saved)
    ensures Distinct(saved + [k])
  {
    forall q | 0 <= q < i
      ensures saved[q] != k
    {
      assert SentIds(sent, ChapterId)[q] == sent[q].id && SentIds(sent, ChapterId)[i] == sent[i].id;
    }
  }

  /**
   * The chapter object `save` hands back, which replaces the sent one in the
   * payload: a chapter sent without an id is persisted and handed back as it
   * is; a chapter sent with an id is merged, and the managed copy handed back
   * lacks the transient temporary ids.
   */
  function HandedBack(sc: SentChapter): (h: SentChapter)
    ensures sc.id.None? ==> h == sc
    ensures sc.id.Some? ==> h.tempId.None? && h.parentTempId.None?
  {
    if sc.id.None? then sc else sc.(tempId := None, parentTempId := None)
  }

  /**
   * The parent the second loop gives a sent chapter, as written: the chapter
   * that the parent's temporary id of the handed-back object names. So only a
   * new chapter whose parent's temporary id was recorded gets a parent; a
   * chapter sent with an id keeps the null parent of the first loop.
   */
  function ParentOfAsWritten(sc: SentChapter, temp: map<string, nat>): (p: Option<int>)
    ensures p.Some? <==> sc.id.None? && sc.parentTempId.Some? && sc.parentTempId.value in temp
    ensures p.Some? ==> p.value == temp[sc.parentTempId.value]
  {
    var parentTempId := HandedBack(sc).parentTempId;
    if parentTempId.Some? && parentTempId.value in temp then Some(temp[parentTempId.value]) else None
  }

  /**
   * The parent the second loop gives a sent chapter (corrected): the chapter
   * that the parent's temporary id, as sent, names, whether or not the chapter
   * was sent with an id.
   */
  function ParentOf(sc: SentChapter, temp: map<string, nat>): (p: Option<int>)
    ensures p.Some? <==> sc.parentTempId.Some? && sc.parentTempId.value in temp
    ensures p.Some? ==> p.value == temp[sc.parentTempId.value]
  {
    if sc.parentTempId.Some? && sc.parentTempId.value in temp then Some(temp[sc.parentTempId.value]) else None
  }

  /**
   * As written, a stored chapter sent with an id loses its parent on every
   * sync, even when its parent's temporary id was sent and recorded; the
   * corrected reading keeps that parent.
   */
  lemma ExistingChapterLosesParentAsWritten(sc: SentChapter, temp: map<string, nat>)
    requires sc.id.Some? && sc.parentTempId.Some? && sc.parentTempId.value in temp
    ensures ParentOfAsWritten(sc, temp).None?
    ensures ParentOf(sc, temp) == Some(temp[sc.parentTempId.value] as int)
  {
  }

  /** What the first loop has done to the table after storing the chapters of `saved`, on values. */
  ghost predicate SavedRows(chs0: map<nat, Chapter>, next0: nat, chs: map<nat, Chapter>, next: nat,
                            pid: int, sent: seq<SentChapter>, saved: seq<nat>)
  {
    |saved| <= |sent| && next0 <= next &&
    (forall k :: k in chs0 ==> k in chs) &&
    (forall k :: k in chs ==> k in saved || (k in chs0 && chs[k] == chs0[k])) &&
    (forall q :: 0 <= q < |saved| ==> saved[q] in chs && chs[saved[q]].projectId == pid && chs[saved[q]].parentId == None) &&
    (forall q :: 0 <= q < |saved| ==> (sent[q].id.Some? && saved[q] == sent[q].id.value) || next0 <= saved[q] < next)
  }

  /** Under distinct sent ids, the chapters of `saved` are stored under distinct ids, each as sent. */
  ghost predicate SavedPlaced(next0: nat, chs: map<nat, Chapter>, pid: int, sent: seq<SentChapter>, saved: seq<nat>)
    requires |saved| <= |sent|
  {
    DistinctSent(SentIds(sent, ChapterId), next0) ==>
      Distinct(saved) && forall q :: 0 <= q < |saved| ==> saved[q] in chs && chs[saved[q]] == Placed(sent[q], saved[q], pid)
  }

  ghost predicate ChaptersSavedSoFar(chs0: map<nat, Chapter>, next0: nat, chs: map<nat, Chapter>, next: nat,
                                     pid: int, sent: seq<SentChapter>, saved: seq<nat>)
  {
    SavedRows(chs0, next0, chs, next, pid, sent, saved) && SavedPlaced(next0, chs, pid, sent, saved)
  }

  /** One more chapter stored by the first loop: the table. */
  lemma {:induction false} SavedRowsStep(chs0: map<nat, Chapter>, next0: nat, chs: map<nat, Chapter>, next: nat,
                                         pid: int, sent: seq<SentChapter>, saved: seq<nat>, k: nat)
    requires SavedRows(chs0, next0, chs, next, pid, sent, saved) && |saved| < |sent|
    requires forall c :: c in chs ==> c < next
    requires k == Target(chs.Keys, sent[|saved|].id, next)
    ensures SavedRows(chs0, next0, chs[k := Placed(sent[|saved|], k, pid)], if k == next then next + 1 else next,
                      pid, sent, saved + [k])
  {
    var saved' := saved + [k];
    assert forall q :: 0 <= q < |saved| ==> saved'[q] == saved[q];
  }

  /** One more chapter stored by the first loop: the rows it stored. */
  lemma {:induction false} SavedPlacedStep(chs0: map<nat, Chapter>, next0: nat, chs: map<nat, Chapter>, next: nat,
                                           pid: int, sent: seq<SentChapter>, saved: seq<nat>, k: nat)
    requires SavedRows(chs0, next0, chs, next, pid, sent, saved) && |saved| < |sent|
    requires SavedPlaced(next0, chs, pid, sent, saved)
    requires forall c :: c in chs ==> c < next
    requires k == Target(chs.Keys, sent[|saved|].id, next)
    ensures SavedPlaced(next0, chs[k := Placed(sent[|saved|], k, pid)], pid, sent, saved + [k])
  {
    var i := |saved|;
    var chs', saved' := chs[k := Placed(sent[i], k, pid)], saved + [k];
    if DistinctSent(SentIds(sent, ChapterId), next0) {
      SavedIdNew(sent, saved, i, k, next0);
      forall q | 0 <= q < |saved'|
        ensures saved'[q] in chs' && chs'[saved'[q]] == Placed(sent[q], saved'[q], pid)
      {
        if q < i {
          assert saved'[q] == saved[q] != k;
        }
      }
    }
  }

  /** The first loop on values: the chapter table, its counter and the ids given, after storing `sent` in turn. */
  function SaveAll(chs: map<nat, Chapter>, next: nat, pid: int, sent: seq<SentChapter>): (r: (map<nat, Chapter>, nat, seq<nat>))
    ensures |r.2| == |sent|
    decreases |sent|
  {
    if sent == [] then (chs, next, [])
    else
      var n := |sent| - 1;
      var (c, m, sv) := SaveAll(chs, next, pid, sent[..n]);
      var k := Target(c.Keys, sent[n].id, m);
      (c[k := Placed(sent[n], k, pid)], if k == m then m + 1 else m, sv + [k])
  }

  /** Storing one more sent chapter. */
  lemma {:induction false} SaveAllLast(chs: map<nat, Chapter>, next: nat, pid: int, sent: seq<SentChapter>, i: nat)
    requires 0 < i <= |sent|
    ensures var p := SaveAll(chs, next, pid, sent[..i - 1]);
      var k := Target(p.0.Keys, sent[i - 1].id, p.1);
      SaveAll(chs, next, pid, sent[..i]) == (p.0[k := Placed(sent[i - 1], k, pid)], if k == p.1 then p.1 + 1 else p.1, p.2 + [k])
  {
    assert sent[..i][..i - 1] == sent[..i - 1] && sent[..i][i - 1] == sent[i - 1];
  }

  /** What storing the first `i` sent chapters leaves in the table, for a table whose ids are below its counter. */
  lemma {:induction false} SaveAllMeaning(chs: map<nat, Chapter>, next: nat, pid: int, sent: seq<SentChapter>, i: nat)
    requires i <= |sent| && forall c :: c in chs ==> c < next
    ensures var r := SaveAll(chs, next, pid, sent[..i]);
      (forall c :: c in r.0 ==> c < r.1) && SavedRows(chs, next, r.0, r.1, pid, sent, r.2)
  {
    if i > 0 {
      SaveAllMeaning(chs, next, pid, sent, i - 1);
      SaveAllLast(chs, next, pid, sent, i);
      var p := SaveAll(chs, next, pid, sent[..i - 1]);
      SavedRowsStep(chs, next, p.0, p.1, pid, sent, p.2, Target(p.0.Keys, sent[i - 1].id, p.1));
    }
  }

  /** Storing the first `i` sent chapters with distinct sent ids stores each as sent, under distinct ids. */
  lemma {:induction false} SaveAllPlaced(chs: map<nat, Chapter>, next: nat, pid: int, sent: seq<SentChapter>, i: nat)
    requires i <= |sent| && forall c :: c in chs ==> c < next
    ensures var r := SaveAll(chs, next, pid, sent[..i]);
      SavedPlaced(next, r.0, pid, sent, r.2)
  {
    if i > 0 {
      SaveAllPlaced(chs, next, pid, sent, i - 1);
      SaveAllMeaning(chs, next, pid, sent, i - 1);
      SaveAllLast(chs, next, pid, sent, i);
      var p := SaveAll(chs, next, pid, sent[..i - 1]);
      var k := Target(p.0.Keys, sent[i - 1].id, p.1);
      SavedPlacedStep(chs, next, p.0, p.1, pid, sent, p.2, k);
      var r := SaveAll(chs, next, pid, sent[..i]);
      assert r.0 == p.0[k := Placed(sent[i - 1], k, pid)] && r.2 == p.2 + [k];
    }
  }

  /**
   * The first loop: every sent chapter stored in the project without a parent,
   * under its own id when the table holds it and a fresh id otherwise; the
   * temporary ids recorded. Other rows are untouched.
   */
  method SaveChapters(db: Database, pid: int, sent: seq<SentChapter>) returns (saved: seq<nat>, temp: map<string, nat>)
    requires db.Valid()
    modifies db
    ensures db.Valid()
    ensures |saved| == |sent| && temp == TempIds(sent, saved)
    ensures db.projects == old(db.projects) && db.lines == old(db.lines) && db.details == old(db.details)
    ensures db.nextLineId == old(db.nextLineId) && db.nextDetailId == old(db.nextDetailId)
    ensures (db.chapters, db.nextChapterId, saved) == SaveAll(old(db.chapters), old(db.nextChapterId), pid, sent)
    ensures ChaptersSavedSoFar(old(db.chapters), old(db.nextChapterId), db.chapters, db.nextChapterId, pid, sent, saved)
  {
    saved := [];
    temp := map[];
    ghost var chs0, next0 := db.chapters, db.nextChapterId;
    for i := 0 to |sent|
      invariant db.Valid()
      invariant |saved| == i && temp == TempIds(sent[..i], saved)
      invariant db.projects == old(db.projects) && db.lines == old(db.lines) && db.details == old(db.details)
      invariant db.nextLineId == old(db.nextLineId) && db.nextDetailId == old(db.nextDetailId)
      invariant (db.chapters, db.nextChapterId, saved) == SaveAll(chs0, next0, pid, sent[..i])
    {
      assert sent[..i + 1][..i] == sent[..i] && sent[..i + 1][i] == sent[i];
      var k := db.SaveChapter(sent[i].chapter.(projectId := pid, parentId := None), sent[i].id);
      TempIdsStep(sent, saved, i, k);
      temp := if sent[i].tempId.Some? then temp[sent[i].tempId.value := k] else temp;
      saved := saved + [k];
    }
    assert sent[..|sent|] == sent;
    SaveAllMeaning(chs0, next0, pid, sent, |sent|);
    SaveAllPlaced(chs0, next0, pid, sent, |sent|);
  }

  // ---------------------------------------------------------------------
  // syncProject, second loop: parents resolved through the temporary ids.
  // ---------------------------------------------------------------------

  /** The second loop on values: the chapter table after linking the chapters of `sent`, stored under `saved`, in turn. */
  function LinkAll(chs: map<nat, Chapter>, pid: int, sent: seq<SentChapter>, saved: seq<nat>, temp: map<string, nat>): (r: map<nat, Chapter>)
    requires |saved| == |sent|
    decreases |sent|
  {
    if sent == [] then chs
    else
      var n := |sent| - 1;
      var c := LinkAll(chs, pid, sent[..n], saved[..n], temp);
      if ParentOf(sent[n], temp).Some? then c[saved[n] := Placed(sent[n], saved[n], pid).(parentId := ParentOf(sent[n], temp))] else c
  }

  /** One more chapter linked, on values. */
  lemma {:induction false} LinkAllStep(chs: map<nat, Chapter>, pid: int, sent: seq<SentChapter>, saved: seq<nat>, temp: map<string, nat>, m: nat)
    requires |saved| == |sent| && 0 < m <= |sent|
    ensures LinkAll(chs, pid, sent[..m], saved[..m], temp) ==
      var c := LinkAll(chs, pid, sent[..m - 1], saved[..m - 1], temp);
      if ParentOf(sent[m - 1], temp).Some? then c[saved[m - 1] := Placed(sent[m - 1], saved[m - 1], pid).(parentId := ParentOf(sent[m - 1], temp))] else c
  {
    assert sent[..m][..m - 1] == sent[..m - 1] && sent[..m][m - 1] == sent[m - 1];
    assert saved[..m][..m - 1] == saved[..m - 1] && saved[..m][m - 1] == saved[m - 1];
  }

  /** Linking the first `m` chapters keeps the rows; a row it changes is in the project under a stored parent. */
  lemma {:induction false} LinkAllFrame(chs: map<nat, Chapter>, pid: int, sent: seq<SentChapter>, saved: seq<nat>, temp: map<string, nat>, m: nat)
    requires |saved| == |sent| && m <= |sent|
    requires forall i :: 0 <= i < |saved| ==> saved[i] in chs
    requires forall t :: t in temp ==> temp[t] in saved
    ensures var r := LinkAll(chs, pid, sent[..m], saved[..m], temp);
      r.Keys == chs.Keys &&
      (forall k :: k in r && k !in saved ==> r[k] == chs[k]) &&
      (forall k :: k in saved ==> r[k] == chs[k] || (r[k].projectId == pid && r[k].parentId.Some? && r[k].parentId.value in saved))
  {
    if m > 0 {
      LinkAllFrame(chs, pid, sent, saved, temp, m - 1);
      LinkAllStep(chs, pid, sent, saved, temp, m);
    }
  }

  /** With distinct ids, each of the first `m` chapters with a recorded parent is linked to it, and no other stored chapter changes. */
  lemma {:induction false} LinkAllPlaced(chs: map<nat, Chapter>, pid: int, sent: seq<SentChapter>, saved: seq<nat>, temp: map<string, nat>, m: nat)
    requires |saved| == |sent| && m <= |sent| && Distinct(saved)
    requires forall i :: 0 <= i < |saved| ==> saved[i] in chs
    ensures var r := LinkAll(chs, pid, sent[..m], saved[..m], temp);
      forall q :: 0 <= q < |saved| ==>
        saved[q] in r &&
        r[saved[q]] == if q < m && ParentOf(sent[q], temp).Some? then Placed(sent[q], saved[q], pid).(parentId := ParentOf(sent[q], temp)) else chs[saved[q]]
  {
    if m > 0 {
      LinkAllPlaced(chs, pid, sent, saved, temp, m - 1);
      LinkAllStep(chs, pid, sent, saved, temp, m);
      var r := LinkAll(chs, pid, sent[..m], saved[..m], temp);
      forall q | 0 <= q < |saved|
        ensures saved[q] in r &&
          r[saved[q]] == if q < m && ParentOf(sent[q], temp).Some? then Placed(sent[q], saved[q], pid).(parentId := ParentOf(sent[q], temp)) else chs[saved[q]]
      {
        if q != m - 1 {
          assert saved[q] != saved[m - 1];
        }
      }
    }
  }

  /**
   * The second loop (corrected): a sent chapter whose parent's temporary id, as
   * sent, was recorded is stored again with that parent. The set of rows does not change, nor does any
   * row the first loop did not store.
   */
  method LinkParents(db: Database, pid: int, sent: seq<SentChapter>, saved: seq<nat>, temp: map<string, nat>)
    requires db.Valid() && |saved| == |sent|
    requires forall i :: 0 <= i < |saved| ==> saved[i] in db.chapters
    requires forall t :: t in temp ==> temp[t] in saved
    modifies db
    ensures db.Valid()
    ensures db.projects == old(db.projects) && db.lines == old(db.lines) && db.details == old(db.details)
    ensures db.nextLineId == old(db.nextLineId) && db.nextDetailId == old(db.nextDetailId)
    ensures db.chapters == LinkAll(old(db.chapters), pid, sent, saved, temp)
    ensures db.chapters.Keys == old(db.chapters).Keys
    ensures forall k :: k in db.chapters && k !in saved ==> db.chapters[k] == old(db.chapters)[k]
    ensures forall k :: k in saved ==>
      (db.chapters[k] == old(db.chapters)[k]) || (db.chapters[k].projectId == pid && db.chapters[k].parentId.Some? && db.chapters[k].parentId.value in saved)
    ensures Distinct(saved) && (forall i :: 0 <= i < |saved| ==> old(db.chapters)[saved[i]] == Placed(sent[i], saved[i], pid)) ==>
      forall i :: 0 <= i < |saved| ==> db.chapters[saved[i]] == Placed(sent[i], saved[i], pid).(parentId := ParentOf(sent[i], temp))
  {
    ghost var chs0 := db.chapters;
    for i := 0 to |sent|
      invariant db.Valid()
      invariant db.projects == old(db.projects) && db.lines == old(db.lines) && db.details == old(db.details)
      invariant db.nextLineId == old(db.nextLineId) && db.nextDetailId == old(db.nextDetailId)
      invariant db.chapters == LinkAll(chs0, pid, sent[..i], saved[..i], temp)
      invariant db.chapters.Keys == chs0.Keys
    {
      assert sent[..i + 1][..i] == sent[..i] && sent[..i + 1][i] == sent[i];
      assert saved[..i + 1][..i] == saved[..i] && saved[..i + 1][i] == saved[i];
      LinkAllStep(chs0, pid, sent, saved, temp, i + 1);
      LinkAllFrame(chs0, pid, sent, saved, temp, i);
      var parentTempId := sent[i].parentTempId;
      assert ParentOf(sent[i], temp).Some? <==> parentTempId.Some? && parentTempId.value in temp;
      if parentTempId.Some? && parentTempId.value in temp {
        var k := db.SaveChapter(Placed(sent[i], saved[i], pid).(parentId := Some(temp[parentTempId.value])), Some(saved[i]));
      }
    }
    assert sent[..|sent|] == sent && saved[..|saved|] == saved;
    LinkAllFrame(chs0, pid, sent, saved, temp, |sent|);
    if Distinct(saved) {
      LinkAllPlaced(chs0, pid, sent, saved, temp, |sent|);
    }
  }

  // ---------------------------------------------------------------------
  // deleteChapterRecursively
  // ---------------------------------------------------------------------

  /** The rows a cascade from some chapters removes: the chapters, their lines, and those lines' details. */
  ghost predicate Cascaded(db: Database, chs: map<nat, Chapter>, lines: map<nat, MainLine>, details: map<nat, DetailLine>, gone: set<nat>)
    reads db
  {
    db.chapters == RemoveKeys(chs, gone) &&
    db.lines == RemoveKeys(lines, LinesUnder(lines, gone)) &&
    db.details == RemoveKeys(details, DetailsUnder(details, LinesUnder(lines, gone)))
  }

  /** Rows are only removed: every row left is an old row, unchanged. */
  ghost predicate SubMap<V>(m: map<nat, V>, m0: map<nat, V>)
  {
    forall k :: k in m ==> k in m0 && m[k] == m0[k]
  }

  /**
   * From the tables `chs0`, `lines0`, `details0` to `chs`, `lines`, `details`
   * rows were only removed, and none stranded: no line is left of a removed
   * chapter, and no detail of a removed line.
   */
  ghost predicate OnlyRemoved(chs: map<nat, Chapter>, lines: map<nat, MainLine>, details: map<nat, DetailLine>,
                              chs0: map<nat, Chapter>, lines0: map<nat, MainLine>, details0: map<nat, DetailLine>)
  {
    SubMap(chs, chs0) && SubMap(lines, lines0) && SubMap(details, details0) &&
    (forall c :: c in chs0 && c !in chs ==> LinesOfChapter(lines, c) == {}) &&
    (forall l :: l in lines0 && l !in lines ==> DetailsOfLine(details, l) == {})
  }

  lemma {:induction false} OnlyRemovedTrans(chs: map<nat, Chapter>, lines: map<nat, MainLine>, details: map<nat, DetailLine>,
                                            chs1: map<nat, Chapter>, lines1: map<nat, MainLine>, details1: map<nat, DetailLine>,
                                            chs0: map<nat, Chapter>, lines0: map<nat, MainLine>, details0: map<nat, DetailLine>)
    requires OnlyRemoved(chs1, lines1, details1, chs0, lines0, details0)
    requires OnlyRemoved(chs, lines, details, chs1, lines1, details1)
    ensures OnlyRemoved(chs, lines, details, chs0, lines0, details0)
  {
    forall c | c in chs0 && c !in chs
      ensures LinesOfChapter(lines, c) == {}
    {
      if c !in chs1 {
        assert forall l :: l in lines ==> l in lines1 && lines[l] == lines1[l];
      }
    }
    forall l | l in lines0 && l !in lines
      ensures DetailsOfLine(details, l) == {}
    {
      if l !in lines1 {
        assert forall d :: d in details ==> d in details1 && details[d] == details1[d];
      }
    }
  }

  /** The last step of `deleteChapterRecursively`: the chapter's own lines, their details, and the chapter. */
  method DeleteOwnRows(db: Database, chapterId: nat)
    modifies db
    ensures db.projects == old(db.projects)
    ensures db.nextChapterId == old(db.nextChapterId) && db.nextLineId == old(db.nextLineId) && db.nextDetailId == old(db.nextDetailId)
    ensures OnlyRemoved(db.chapters, db.lines, db.details, old(db.chapters), old(db.lines), old(db.details))
    ensures db.chapters == old(db.chapters) - {chapterId}
    ensures db.lines == RemoveKeys(old(db.lines), LinesOfChapter(old(db.lines), chapterId))
    ensures forall d :: d in old(db.details) && d !in db.details ==> old(db.details)[d].mainTableLineId in LinesOfChapter(old(db.lines), chapterId)
  {
    var lines := Enumerate(LinesOfChapter(db.lines, chapterId));
    for j := 0 to |lines|
      invariant db.projects == old(db.projects) && db.chapters == old(db.chapters) && db.lines == old(db.lines)
      invariant db.nextChapterId == old(db.nextChapterId) && db.nextLineId == old(db.nextLineId) && db.nextDetailId == old(db.nextDetailId)
      invariant SubMap(db.details, old(db.details))
      invariant forall m :: 0 <= m < j ==> DetailsOfLine(db.details, lines[m]) == {}
      invariant forall d :: d in old(db.details) && d !in db.details ==> old(db.details)[d].mainTableLineId in lines
    {
      db.details := RemoveKeys(db.details, DetailsOfLine(db.details, lines[j]));
    }
    db.lines := RemoveKeys(db.lines, set l | l in lines);
    db.chapters := db.chapters - {chapterId};
  }

  /**
   * `deleteChapterRecursively` with the recursion bounded by the call stack:
   * `fuel` calls deep at most, `finished` false when the bound was hit. The
   * children are read from all chapters of every project. Whether or not it
   * finishes, it only removes rows and strands none; a run that finishes has
   * removed the chapter and each of its children.
   */
  method DeleteChapterRecursivelyAsWritten(db: Database, chapterId: nat, fuel: nat) returns (finished: bool)
    modifies db
    ensures db.projects == old(db.projects)
    ensures db.nextChapterId == old(db.nextChapterId) && db.nextLineId == old(db.nextLineId) && db.nextDetailId == old(db.nextDetailId)
    ensures OnlyRemoved(db.chapters, db.lines, db.details, old(db.chapters), old(db.lines), old(db.details))
    ensures finished ==> chapterId !in db.chapters && forall c :: c in ChildIds(old(db.chapters), chapterId) ==> c !in db.chapters
    ensures old(db.chapters).Keys == {chapterId} && old(db.chapters)[chapterId].parentId == Some(chapterId) ==> !finished
    decreases fuel
  {
    if fuel == 0 {
      return false;
    }
    var children := Enumerate(ChildIds(db.chapters, chapterId));
    if old(db.chapters).Keys == {chapterId} && old(db.chapters)[chapterId].parentId == Some(chapterId) {
      assert ChildIds(db.chapters, chapterId) == {chapterId};
      assert |children| == 1 && children[0] in children;
    }
    var i := 0;
    while i < |children|
      invariant 0 <= i <= |children|
      invariant db.projects == old(db.projects)
      invariant db.nextChapterId == old(db.nextChapterId) && db.nextLineId == old(db.nextLineId) && db.nextDetailId == old(db.nextDetailId)
      invariant OnlyRemoved(db.chapters, db.lines, db.details, old(db.chapters), old(db.lines), old(db.details))
      invariant forall m :: 0 <= m < i ==> children[m] !in db.chapters
      invariant old(db.chapters).Keys == {chapterId} && old(db.chapters)[chapterId].parentId == Some(chapterId) ==>
        i == 0 && db.chapters == old(db.chapters) && children == [chapterId]
    {
      ghost var chs1, lines1, details1 := db.chapters, db.lines, db.details;
      var ok := DeleteChapterRecursivelyAsWritten(db, children[i], fuel - 1);
      OnlyRemovedTrans(db.chapters, db.lines, db.details, chs1, lines1, details1, old(db.chapters), old(db.lines), old(db.details));
      if !ok {
        return false;
      }
      i := i + 1;
    }
    ghost var chs1, lines1, details1 := db.chapters, db.lines, db.details;
    DeleteOwnRows(db, chapterId);
    OnlyRemovedTrans(db.chapters, db.lines, db.details, chs1, lines1, details1, old(db.chapters), old(db.lines), old(db.details));
    return true;
  }

  /** A chapter that is its own parent: the recursion as written re-enters it until the stack runs out, whatever its depth. */
  method SelfParentNeverDeletedAsWritten(fuel: nat) returns (finished: bool)
    ensures !finished
  {
    var c := Chapter(1, 1, Some(1), "1", "", "");
    var db := new Database(map[1 := Project(1, "", 0, 0)], map[1 := c], map[], map[], 2, 1, 1);
    finished := DeleteChapterRecursivelyAsWritten(db, 1, fuel);
  }

  /**
   * `deleteChapterRecursively`, terminating on every table: the chapter and all
   * chapters below it, followed through the parent links with each chapter
   * visited once, are removed with their lines and those lines' details.
   */
  method DeleteChapterRecursively(db: Database, chapterId: nat)
    requires db.Valid()
    modifies db
    ensures db.Valid()
    ensures Cascaded(db, old(db.chapters), old(db.lines), old(db.details), Descendants(old(db.chapters), {chapterId}))
    ensures db.projects == old(db.projects)
    ensures db.nextChapterId == old(db.nextChapterId) && db.nextLineId == old(db.nextLineId) && db.nextDetailId == old(db.nextDetailId)
  {
    var gone := Descendants(db.chapters, {chapterId});
    var goneLines := LinesUnder(db.lines, gone);
    db.details := RemoveKeys(db.details, DetailsUnder(db.details, goneLines));
    db.lines := RemoveKeys(db.lines, goneLines);
    db.chapters := RemoveKeys(db.chapters, gone);
  }

  /** The corrected deletion removes a chapter that is its own parent, and its line and detail. */
  method SelfParentDeleted() returns (db: Database)
    ensures db.chapters == map[] && db.lines == map[] && db.details == map[]
  {
    var c := Chapter(1, 1, Some(1), "1", "", "");
    var l := MainLine(1, 1, "", "1", "", "", "", 0.0, 0.0, 0.0, "", 0);
    var d := DetailLine(1, 1, "", 0.0, 0.0, 0.0, 0.0, 0.0, 0.0, "", 0);
    db := new Database(map[1 := Project(1, "", 0, 0)], map[1 := c], map[1 := l], map[1 := d], 2, 2, 2);
    DescendantsMeaning(db.chapters, {1});
    DeleteChapterRecursively(db, 1);
    assert 1 !in db.chapters.Keys;
  }

  /** Two cascades in a row remove what one cascade from both starting points removes. */
  lemma {:induction false} CascadeInSteps(chs: map<nat, Chapter>, lines: map<nat, MainLine>, details: map<nat, DetailLine>, a: set<nat>, x: nat)
    ensures var d1 := Descendants(chs, a);
      var l1 := LinesUnder(lines, d1);
      var d2 := Descendants(RemoveKeys(chs, d1), {x});
      var lines1 := RemoveKeys(lines, l1);
      var l2 := LinesUnder(lines1, d2);
      var details1 := RemoveKeys(details, DetailsUnder(details, l1));
      var both := Descendants(chs, a + {x});
      RemoveKeys(RemoveKeys(chs, d1), d2) == RemoveKeys(chs, both) &&
      RemoveKeys(lines1, l2) == RemoveKeys(lines, LinesUnder(lines, both)) &&
      RemoveKeys(details1, DetailsUnder(details1, l2)) == RemoveKeys(details, DetailsUnder(details, LinesUnder(lines, both)))
  {
    var d1 := Descendants(chs, a);
    var l1 := LinesUnder(lines, d1);
    var d2 := Descendants(RemoveKeys(chs, d1), {x});
    var lines1 := RemoveKeys(lines, l1);
    var l2 := LinesUnder(lines1, d2);
    var details1 := RemoveKeys(details, DetailsUnder(details, l1));
    var both := Descendants(chs, a + {x});
    DescendantsInSteps(chs, a, x);
    assert both == d1 + d2;
    RemoveTwice(chs, d1, d2);
    LinesUnderSplit(lines, d1, d2);
    RemoveTwice(lines, l1, l2);
    DetailsUnderSplit(details, l1, l2);
    RemoveTwice(details, DetailsUnder(details, l1), DetailsUnder(details1, l2));
  }

  /** Removing two sets of keys in turn removes their union. */
  lemma {:induction false} RemoveTwice<V>(m: map<nat, V>, a: set<nat>, b: set<nat>)
    ensures RemoveKeys(RemoveKeys(m, a), b) == RemoveKeys(m, a + b)
  {
  }

  /** The lines of two sets of chapters: those of the first, then those of the second among the lines left. */
  lemma {:induction false} LinesUnderSplit(lines: map<nat, MainLine>, c1: set<nat>, c2: set<nat>)
    ensures LinesUnder(lines, c1 + c2) == LinesUnder(lines, c1) + LinesUnder(RemoveKeys(lines, LinesUnder(lines, c1)), c2)
  {
  }

  /** The details of two sets of lines: those of the first, then those of the second among the details left. */
  lemma {:induction false} DetailsUnderSplit(details: map<nat, DetailLine>, l1: set<nat>, l2: set<nat>)
    ensures DetailsUnder(details, l1 + l2) == DetailsUnder(details, l1) + DetailsUnder(RemoveKeys(details, DetailsUnder(details, l1)), l2)
  {
  }

  /** A cascade from one more chapter extends the cascade from the chapters before it. */
  lemma {:induction false} CascadeStep(chs0: map<nat, Chapter>, lines0: map<nat, MainLine>, details0: map<nat, DetailLine>, roots: set<nat>, x: nat,
                    chs1: map<nat, Chapter>, lines1: map<nat, MainLine>, details1: map<nat, DetailLine>,
                    chs2: map<nat, Chapter>, lines2: map<nat, MainLine>, details2: map<nat, DetailLine>)
    requires var d := Descendants(chs0, roots);
      chs1 == RemoveKeys(chs0, d) && lines1 == RemoveKeys(lines0, LinesUnder(lines0, d)) &&
      details1 == RemoveKeys(details0, DetailsUnder(details0, LinesUnder(lines0, d)))
    requires var d := Descendants(chs1, {x});
      chs2 == RemoveKeys(chs1, d) && lines2 == RemoveKeys(lines1, LinesUnder(lines1, d)) &&
      details2 == RemoveKeys(details1, DetailsUnder(details1, LinesUnder(lines1, d)))
    ensures var d := Descendants(chs0, roots + {x});
      chs2 == RemoveKeys(chs0, d) && lines2 == RemoveKeys(lines0, LinesUnder(lines0, d)) &&
      details2 == RemoveKeys(details0, DetailsUnder(details0, LinesUnder(lines0, d)))
  {
    CascadeInSteps(chs0, lines0, details0, roots, x);
  }

  /** One turn of the deletion loop: the `i`-th chapter of the project deleted with its descendants unless it was stored. */
  method DeleteUnsentTurn(db: Database, existing: seq<nat>, sentIds: set<nat>, i: nat, ghost roots: set<nat>,
                          ghost chs0: map<nat, Chapter>, ghost lines0: map<nat, MainLine>, ghost details0: map<nat, DetailLine>)
    returns (ghost roots': set<nat>)
    requires db.Valid() && i < |existing|
    requires forall k :: k in roots <==> k in existing[..i] && k !in sentIds
    requires Cascaded(db, chs0, lines0, details0, Descendants(chs0, roots))
    modifies db
    ensures db.Valid()
    ensures forall k :: k in roots' <==> k in existing[..i + 1] && k !in sentIds
    ensures Cascaded(db, chs0, lines0, details0, Descendants(chs0, roots'))
    ensures db.projects == old(db.projects)
    ensures db.nextChapterId == old(db.nextChapterId) && db.nextLineId == old(db.nextLineId) && db.nextDetailId == old(db.nextDetailId)
  {
    assert existing[..i + 1] == existing[..i] + [existing[i]];
    roots' := roots;
    if existing[i] !in sentIds {
      ghost var chs1, lines1, details1 := db.chapters, db.lines, db.details;
      DeleteChapterRecursively(db, existing[i]);
      CascadeStep(chs0, lines0, details0, roots, existing[i], chs1, lines1, details1, db.chapters, db.lines, db.details);
      roots' := roots + {existing[i]};
    }
  }

  /**
   * The last step of the sync: every chapter the project holds that was not
   * among the stored ones is deleted with everything below it. The chapters
   * removed are the descendants of those chapters.
   */
  method DeleteUnsentChapters(db: Database, pid: int, saved: seq<nat>)
    requires db.Valid()
    modifies db
    ensures db.Valid()
    ensures Cascaded(db, old(db.chapters), old(db.lines), old(db.details),
      Descendants(old(db.chapters), ProjectChapterIds(old(db.chapters), pid) - set k | k in saved))
    ensures db.projects == old(db.projects)
    ensures db.nextChapterId == old(db.nextChapterId) && db.nextLineId == old(db.nextLineId) && db.nextDetailId == old(db.nextDetailId)
  {
    ghost var chs0, lines0, details0 := db.chapters, db.lines, db.details;
    var existing := Enumerate(ProjectChapterIds(db.chapters, pid));
    var sentIds := set k | k in saved;
    ghost var roots: set<nat> := {};
    assert Descendants(chs0, {}) == {} by {
      assert Grow(chs0, {}) == {};
    }
    for i := 0 to |existing|
      invariant db.Valid()
      invariant forall k :: k in roots <==> k in existing[..i] && k !in sentIds
      invariant Cascaded(db, chs0, lines0, details0, Descendants(chs0, roots))
      invariant db.projects == old(db.projects)
      invariant db.nextChapterId == old(db.nextChapterId) && db.nextLineId == old(db.nextLineId) && db.nextDetailId == old(db.nextDetailId)
    {
      roots := DeleteUnsentTurn(db, existing, sentIds, i, roots, chs0, lines0, details0);
    }
    assert existing[..|existing|] == existing;
    assert roots == ProjectChapterIds(chs0, pid) - sentIds;
  }

  // ---------------------------------------------------------------------
  // syncProject, third loop: lines and details.
  // ---------------------------------------------------------------------


  /** The detail ids sent with some lines, line after line. */
  function LinesDetailIds(sls: seq<SentLine>): seq<Option<int>>
  {
    if sls == [] then [] else LinesDetailIds(sls[..|sls| - 1]) + SentIds(sls[|sls| - 1].details, DetailId)
  }

  /** The line ids sent with some chapters, chapter after chapter. */
  function AllLineIds(sent: seq<SentChapter>): seq<Option<int>>
  {
    if sent == [] then [] else AllLineIds(sent[..|sent| - 1]) + SentIds(sent[|sent| - 1].lines, LineId)
  }

  /** The detail ids sent with some chapters, chapter after chapter. */
  function AllDetailIds(sent: seq<SentChapter>): seq<Option<int>>
  {
    if sent == [] then [] else AllDetailIds(sent[..|sent| - 1]) + LinesDetailIds(sent[|sent| - 1].lines)
  }

  /** Two lists of sent ids whose concatenation is distinct are each distinct and share no id. */
  lemma {:induction false} DistinctSentSplit(a: seq<Option<int>>, b: seq<Option<int>>, next: int)
    requires DistinctSent(a + b, next)
    ensures DistinctSent(a, next) && DistinctSent(b, next)
    ensures forall x: int :: Some(x) in a ==> Some(x) !in b
  {
    assert forall i :: 0 <= i < |a| ==> (a + b)[i] == a[i];
    assert forall i :: 0 <= i < |b| ==> (a + b)[|a| + i] == b[i];
    forall x: int | Some(x) in a
      ensures Some(x) !in b
    {
      var i :| 0 <= i < |a| && a[i] == Some(x);
      assert (a + b)[i] == Some(x);
    }
  }

  /**
   * Ids stored for earlier rows and ids stored now never meet: earlier ones are
   * earlier sent ids or fresh ids below `mid`; current ones are other sent ids
   * or fresh ids from `mid` on; every sent id is below `next0 <= mid`.
   */
  lemma {:induction false} TargetsApart(earlier: set<nat>, now: set<nat>, a: seq<Option<int>>, b: seq<Option<int>>, next0: int, mid: int)
    requires next0 <= mid
    requires forall x :: x in earlier ==> Some(x as int) in a || next0 <= x < mid
    requires forall x :: x in now ==> Some(x as int) in b || mid <= x
    requires forall x: int :: Some(x) in a ==> Some(x) !in b
    requires forall x: int :: Some(x) in a || Some(x) in b ==> x < next0
    ensures earlier !! now
  {
  }

  /** A line's details are exactly the ones stored for it, in the order they were sent. */
  ghost predicate LineExact(details: map<nat, DetailLine>, t: nat, ds: seq<nat>, sds: seq<SentDetail>)
  {
    (forall d: int :: d in DetailsOfLine(details, t) <==> d in ds) &&
    |ds| == |sds| &&
    forall m :: 0 <= m < |ds| ==> ds[m] in details && details[ds[m]] == sds[m].detail.(id := ds[m], mainTableLineId := t)
  }

  /** Rows outside `written` that are there are as they were. */
  ghost predicate KeptOutside<V>(before: map<nat, V>, after: map<nat, V>, written: set<nat>)
  {
    forall k :: k in after && k !in written ==> k in before && after[k] == before[k]
  }

  function SetOf(s: seq<nat>): (r: set<nat>)
    ensures forall x :: x in r <==> x in s
  {
    set x | x in s
  }

  /** The detail loop on values: the detail table, its counter and the ids given, after storing `sds` in turn for line `t`. */
  function StoreDetails(details: map<nat, DetailLine>, next: nat, t: nat, sds: seq<SentDetail>): (r: (map<nat, DetailLine>, nat, seq<nat>))
    ensures |r.2| == |sds|
    decreases |sds|
  {
    if sds == [] then (details, next, [])
    else
      var n := |sds| - 1;
      var (d, m, ds) := StoreDetails(details, next, t, sds[..n]);
      var k := Target(d.Keys, sds[n].id, m);
      (d[k := sds[n].detail.(id := k, mainTableLineId := t)], if k == m then m + 1 else m, ds + [k])
  }

  /** What the detail loop has done to the table after storing the details of `ds`. */
  ghost predicate DetailsSavedRows(details0: map<nat, DetailLine>, next0: nat, details: map<nat, DetailLine>, next: nat,
                                   t: nat, sds: seq<SentDetail>, ds: seq<nat>)
  {
    |ds| <= |sds| && next0 <= next &&
    (forall q :: 0 <= q < |ds| ==> (sds[q].id.Some? && ds[q] == sds[q].id.value) || next0 <= ds[q] < next) &&
    (forall q :: 0 <= q < |ds| ==> ds[q] in details && details[ds[q]].mainTableLineId == t) &&
    KeptOutside(details0, details, SetOf(ds)) && details0.Keys <= details.Keys
  }

  /** Under distinct sent ids, the details of `ds` are stored under distinct ids, each as sent. */
  ghost predicate DetailsSavedPlaced(next0: nat, details: map<nat, DetailLine>, t: nat, sds: seq<SentDetail>, ds: seq<nat>)
    requires |ds| <= |sds|
  {
    DistinctSent(SentIds(sds, DetailId), next0) ==>
      Distinct(ds) && forall q :: 0 <= q < |ds| ==> ds[q] in details && details[ds[q]] == sds[q].detail.(id := ds[q], mainTableLineId := t)
  }

  /** One more detail stored: the table. */
  lemma {:induction false} DetailsSavedRowsStep(details0: map<nat, DetailLine>, next0: nat, details: map<nat, DetailLine>, next: nat,
                                                t: nat, sds: seq<SentDetail>, ds: seq<nat>, k: nat)
    requires DetailsSavedRows(details0, next0, details, next, t, sds, ds) && |ds| < |sds|
    requires k == Target(details.Keys, sds[|ds|].id, next)
    ensures DetailsSavedRows(details0, next0, details[k := sds[|ds|].detail.(id := k, mainTableLineId := t)],
                             if k == next then next + 1 else next, t, sds, ds + [k])
  {
    var ds' := ds + [k];
    assert forall q :: 0 <= q < |ds| ==> ds'[q] == ds[q];
  }

  /** One more detail stored: the rows it stored. */
  lemma {:induction false} DetailsSavedPlacedStep(details0: map<nat, DetailLine>, next0: nat, details: map<nat, DetailLine>, next: nat,
                                                  t: nat, sds: seq<SentDetail>, ds: seq<nat>, k: nat)
    requires DetailsSavedRows(details0, next0, details, next, t, sds, ds) && |ds| < |sds|
    requires DetailsSavedPlaced(next0, details, t, sds, ds)
    requires forall c :: c in details ==> c < next
    requires k == Target(details.Keys, sds[|ds|].id, next)
    ensures DetailsSavedPlaced(next0, details[k := sds[|ds|].detail.(id := k, mainTableLineId := t)], t, sds, ds + [k])
  {
    var m := |ds|;
    var details', ds' := details[k := sds[m].detail.(id := k, mainTableLineId := t)], ds + [k];
    if DistinctSent(SentIds(sds, DetailId), next0) {
      forall q | 0 <= q < m
        ensures ds[q] != k
      {
        assert SentIds(sds, DetailId)[q] == sds[q].id && SentIds(sds, DetailId)[m] == sds[m].id;
      }
      forall q | 0 <= q < |ds'|
        ensures ds'[q] in details' && details'[ds'[q]] == sds[q].detail.(id := ds'[q], mainTableLineId := t)
      {
        if q < m {
          assert ds'[q] == ds[q] != k;
        }
      }
    }
  }

  /** Storing one more sent detail. */
  lemma {:induction false} StoreDetailsLast(details: map<nat, DetailLine>, next: nat, t: nat, sds: seq<SentDetail>, m: nat)
    requires 0 < m <= |sds|
    ensures var p := StoreDetails(details, next, t, sds[..m - 1]);
      var k := Target(p.0.Keys, sds[m - 1].id, p.1);
      StoreDetails(details, next, t, sds[..m]) ==
        (p.0[k := sds[m - 1].detail.(id := k, mainTableLineId := t)], if k == p.1 then p.1 + 1 else p.1, p.2 + [k])
  {
    assert sds[..m][..m - 1] == sds[..m - 1] && sds[..m][m - 1] == sds[m - 1];
  }

  /** What storing the first `m` sent details leaves in the table, for a table whose ids are below its counter:
      the stored rows, and with distinct sent ids each detail as sent under an id of its own. */
  lemma {:induction false} StoreDetailsMeaning(details: map<nat, DetailLine>, next: nat, t: nat, sds: seq<SentDetail>, m: nat)
    requires m <= |sds| && forall c :: c in details ==> c < next
    ensures var r := StoreDetails(details, next, t, sds[..m]);
      (forall c :: c in r.0 ==> c < r.1) && DetailsSavedRows(details, next, r.0, r.1, t, sds, r.2) &&
      DetailsSavedPlaced(next, r.0, t, sds, r.2)
  {
    if m > 0 {
      StoreDetailsMeaning(details, next, t, sds, m - 1);
      StoreDetailsLast(details, next, t, sds, m);
      var p := StoreDetails(details, next, t, sds[..m - 1]);
      var k := Target(p.0.Keys, sds[m - 1].id, p.1);
      DetailsSavedRowsStep(details, next, p.0, p.1, t, sds, p.2, k);
      DetailsSavedPlacedStep(details, next, p.0, p.1, t, sds, p.2, k);
    }
  }

  /** The details of a sent line, each stored with the line. */
  method SaveDetails(db: Database, t: nat, sds: seq<SentDetail>) returns (ds: seq<nat>)
    requires db.Valid()
    modifies db
    ensures db.Valid() && old(db.nextDetailId) <= db.nextDetailId
    ensures db.projects == old(db.projects) && db.chapters == old(db.chapters) && db.lines == old(db.lines)
    ensures db.nextChapterId == old(db.nextChapterId) && db.nextLineId == old(db.nextLineId)
    ensures (db.details, db.nextDetailId, ds) == StoreDetails(old(db.details), old(db.nextDetailId), t, sds)
    ensures |ds| == |sds|
    ensures forall x :: x in ds ==> Some(x as int) in SentIds(sds, DetailId) || old(db.nextDetailId) <= x < db.nextDetailId
    ensures forall q :: 0 <= q < |ds| ==> ds[q] in db.details && db.details[ds[q]].mainTableLineId == t
    ensures KeptOutside(old(db.details), db.details, SetOf(ds)) && old(db.details).Keys <= db.details.Keys
    ensures DetailsSavedPlaced(old(db.nextDetailId), db.details, t, sds, ds)
  {
    ghost var details0, next0 := db.details, db.nextDetailId;
    ds := [];
    for m := 0 to |sds|
      invariant db.Valid()
      invariant db.projects == old(db.projects) && db.chapters == old(db.chapters) && db.lines == old(db.lines)
      invariant db.nextChapterId == old(db.nextChapterId) && db.nextLineId == old(db.nextLineId)
      invariant (db.details, db.nextDetailId, ds) == StoreDetails(details0, next0, t, sds[..m])
    {
      assert sds[..m + 1][..m] == sds[..m] && sds[..m + 1][m] == sds[m];
      var k := db.SaveDetail(sds[m].detail.(mainTableLineId := t), sds[m].id);
      ds := ds + [k];
    }
    assert sds[..|sds|] == sds;
    StoreDetailsMeaning(details0, next0, t, sds, |sds|);
    forall x | x in ds
      ensures Some(x as int) in SentIds(sds, DetailId) || next0 <= x < db.nextDetailId
    {
      var q :| 0 <= q < |ds| && ds[q] == x;
      assert SentIds(sds, DetailId)[q] == sds[q].id;
    }
  }

  /**
   * One sent line: stored with its chapter, then each of its details stored
   * with the line, then every other detail of the line deleted.
   */
  method SyncLine(db: Database, c: nat, sl: SentLine) returns (t: nat, ds: seq<nat>)
    requires db.Valid()
    modifies db
    ensures db.Valid()
    ensures db.projects == old(db.projects) && db.chapters == old(db.chapters) && db.nextChapterId == old(db.nextChapterId)
    ensures t == Target(old(db.lines).Keys, sl.id, old(db.nextLineId))
    ensures db.lines == old(db.lines)[t := sl.mainTableLine.(id := t, chapterId := c)]
    ensures db.nextLineId == if t == old(db.nextLineId) then old(db.nextLineId) + 1 else old(db.nextLineId)
    ensures |ds| == |sl.details| && old(db.nextDetailId) <= db.nextDetailId
    ensures forall x :: x in ds ==> Some(x as int) in SentIds(sl.details, DetailId) || old(db.nextDetailId) <= x < db.nextDetailId
    ensures forall d: int :: d in DetailsOfLine(db.details, t) <==> d in ds
    ensures KeptOutside(old(db.details), db.details, SetOf(ds))
    ensures forall d :: d in old(db.details) && d !in ds && old(db.details)[d].mainTableLineId != t ==> d in db.details
    ensures DistinctSent(SentIds(sl.details, DetailId), old(db.nextDetailId)) ==> Distinct(ds) && LineExact(db.details, t, ds, sl.details)
  {
    t := db.SaveLine(sl.mainTableLine.(chapterId := c), sl.id);
    ds := SaveDetails(db, t, sl.details);
    var existing := Enumerate(DetailsOfLine(db.details, t));
    db.details := DeleteUnsent(db.details, existing, SetOf(ds));
  }

  /** The ids some lists hold together. */
  function UnionOf(dss: seq<seq<nat>>): (r: set<nat>)
    ensures forall q, x :: 0 <= q < |dss| && x in dss[q] ==> x in r
    ensures forall x :: x in r ==> exists q :: 0 <= q < |dss| && x in dss[q]
  {
    set q, x | 0 <= q < |dss| && x in dss[q] :: x
  }

  lemma {:induction false} UnionOfAppend(dss: seq<seq<nat>>, ds: seq<nat>)
    ensures UnionOf(dss + [ds]) == UnionOf(dss) + SetOf(ds)
  {
    var e := dss + [ds];
    assert forall q :: 0 <= q < |dss| ==> e[q] == dss[q];
    assert e[|dss|] == ds;
    forall x | x in UnionOf(e)
      ensures x in UnionOf(dss) + SetOf(ds)
    {
      var q :| 0 <= q < |e| && x in e[q];
      if q < |dss| {
        assert x in dss[q];
      }
    }
  }

  lemma {:induction false} DistinctSentPrefix(a: seq<Option<int>>, b: seq<Option<int>>, next: int, bound: int)
    requires a <= b && DistinctSent(b, next) && next <= bound
    ensures DistinctSent(a, bound)
  {
    assert forall i :: 0 <= i < |a| ==> a[i] == b[i];
  }

  lemma {:induction false} LinesDetailIdsPrefix(sls: seq<SentLine>, k: nat)
    requires k <= |sls|
    ensures LinesDetailIds(sls[..k]) <= LinesDetailIds(sls)
    decreases |sls|
  {
    if k < |sls| {
      var n := |sls| - 1;
      assert sls[..n][..k] == sls[..k];
      LinesDetailIdsPrefix(sls[..n], k);
    } else {
      assert sls[..k] == sls;
    }
  }

  lemma {:induction false} AllLineIdsPrefix(sent: seq<SentChapter>, k: nat)
    requires k <= |sent|
    ensures AllLineIds(sent[..k]) <= AllLineIds(sent)
    decreases |sent|
  {
    if k < |sent| {
      var n := |sent| - 1;
      assert sent[..n][..k] == sent[..k];
      AllLineIdsPrefix(sent[..n], k);
    } else {
      assert sent[..k] == sent;
    }
  }

  lemma {:induction false} AllDetailIdsPrefix(sent: seq<SentChapter>, k: nat)
    requires k <= |sent|
    ensures AllDetailIds(sent[..k]) <= AllDetailIds(sent)
    decreases |sent|
  {
    if k < |sent| {
      var n := |sent| - 1;
      assert sent[..n][..k] == sent[..k];
      AllDetailIdsPrefix(sent[..n], k);
    } else {
      assert sent[..k] == sent;
    }
  }

  /**
   * The details of a line stay exact while other rows are written: the rows
   * written are not its own and now belong to other lines, and no row of it
   * was deleted.
   */
  lemma {:induction false} LineExactKept(details: map<nat, DetailLine>, details': map<nat, DetailLine>, tq: nat, dsq: seq<nat>, sdsq: seq<SentDetail>,
                                         others: set<nat>, written: set<nat>)
    requires LineExact(details, tq, dsq, sdsq)
    requires tq !in others && SetOf(dsq) !! written
    requires KeptOutside(details, details', written)
    requires forall d :: d in details && d !in written && details[d].mainTableLineId !in others ==> d in details'
    requires forall d :: d in written && d in details' ==> details'[d].mainTableLineId in others
    ensures LineExact(details', tq, dsq, sdsq)
  {
  }

  /** A sent chapter's lines, each with its exact details, the chapter holding no other line. */
  ghost predicate ChapterExact(lines: map<nat, MainLine>, details: map<nat, DetailLine>, c: nat, ts: seq<nat>, dss: seq<seq<nat>>, sls: seq<SentLine>)
  {
    (forall l: int :: l in LinesOfChapter(lines, c) <==> l in ts) &&
    |ts| == |sls| && |dss| == |sls| && Distinct(ts) &&
    forall j :: 0 <= j < |ts| ==>
      ts[j] in lines && lines[ts[j]] == sls[j].mainTableLine.(id := ts[j], chapterId := c) &&
      LineExact(details, ts[j], dss[j], sls[j].details)
  }

  /**
   * The cleanup after a chapter's lines: every other line of the chapter is
   * deleted, and with it its details, so no detail is left without its line.
   */
  method RemoveUnsentLines(db: Database, c: nat, kept: set<nat>)
    requires db.Valid()
    modifies db
    ensures db.Valid()
    ensures db.projects == old(db.projects) && db.chapters == old(db.chapters)
    ensures db.nextChapterId == old(db.nextChapterId) && db.nextLineId == old(db.nextLineId) && db.nextDetailId == old(db.nextDetailId)
    ensures db.lines == RemoveKeys(old(db.lines), LinesOfChapter(old(db.lines), c) - kept)
    ensures db.details == RemoveKeys(old(db.details), DetailsUnder(old(db.details), LinesOfChapter(old(db.lines), c) - kept))
    ensures DetailsLinked(old(db.lines), old(db.details)) ==> DetailsLinked(db.lines, db.details)
  {
    var existing := Enumerate(LinesOfChapter(db.lines, c));
    var removed := set l | l in existing && l !in kept;
    assert removed == LinesOfChapter(db.lines, c) - kept;
    db.details := RemoveKeys(db.details, DetailsUnder(db.details, removed));
    db.lines := DeleteUnsent(db.lines, existing, kept);
  }

  /** The cleanup as written: the other lines of the chapter are deleted and their details are left. */
  method RemoveUnsentLinesAsWritten(db: Database, c: nat, kept: set<nat>)
    requires db.Valid()
    modifies db
    ensures db.Valid()
    ensures db.projects == old(db.projects) && db.chapters == old(db.chapters) && db.details == old(db.details)
    ensures db.nextChapterId == old(db.nextChapterId) && db.nextLineId == old(db.nextLineId) && db.nextDetailId == old(db.nextDetailId)
    ensures db.lines == RemoveKeys(old(db.lines), LinesOfChapter(old(db.lines), c) - kept)
  {
    var existing := Enumerate(LinesOfChapter(db.lines, c));
    db.lines := DeleteUnsent(db.lines, existing, kept);
  }

  /** A chapter sent without its one line: as written, the line's detail is left pointing at a line that is gone. */
  method OrphanedDetailAsWritten() returns (db: Database)
    ensures 7 in db.details && db.details[7].mainTableLineId !in db.lines
  {
    var l := MainLine(5, 1, "", "1", "", "", "", 0.0, 0.0, 0.0, "", 0);
    var d := DetailLine(7, 5, "", 0.0, 0.0, 0.0, 0.0, 0.0, 0.0, "", 0);
    db := new Database(map[1 := Project(1, "", 0, 0)], map[1 := Chapter(1, 1, None, "1", "", "")], map[5 := l], map[7 := d], 2, 6, 8);
    RemoveUnsentLinesAsWritten(db, 1, {});
    assert 5 in LinesOfChapter(map[5 := l], 1);
  }

  /** The unit hypothesis split for line `j`: its ids are distinct and apart from the ids of the lines before it. */
  lemma {:induction false} LineStepFits(sls: seq<SentLine>, j: int, nextL0: int, nextD0: int, nextD: int)
    requires 0 <= j < |sls| && nextD0 <= nextD
    requires DistinctSent(SentIds(sls, LineId), nextL0) && DistinctSent(LinesDetailIds(sls), nextD0)
    ensures LinesDetailIds(sls[..j + 1]) == LinesDetailIds(sls[..j]) + SentIds(sls[j].details, DetailId)
    ensures SentIds(sls[..j + 1], LineId) == SentIds(sls[..j], LineId) + [sls[j].id]
    ensures DistinctSent(SentIds(sls[j].details, DetailId), nextD)
    ensures forall x: int :: Some(x) in LinesDetailIds(sls[..j]) ==> Some(x) !in SentIds(sls[j].details, DetailId)
    ensures forall x: int :: Some(x) in LinesDetailIds(sls[..j]) || Some(x) in SentIds(sls[j].details, DetailId) ==> x < nextD0
    ensures forall x: int :: Some(x) in SentIds(sls[..j], LineId) ==> Some(x) != sls[j].id
    ensures forall x: int :: Some(x) in SentIds(sls[..j], LineId) || Some(x) in [sls[j].id] ==> x < nextL0
  {
    assert sls[..j + 1][..j] == sls[..j] && sls[..j + 1][j] == sls[j];
    LinesDetailIdsPrefix(sls, j + 1);
    DistinctSentPrefix(LinesDetailIds(sls[..j + 1]), LinesDetailIds(sls), nextD0, nextD0);
    DistinctSentSplit(LinesDetailIds(sls[..j]), SentIds(sls[j].details, DetailId), nextD0);
    DistinctSentPrefix(SentIds(sls[j].details, DetailId), SentIds(sls[j].details, DetailId), nextD0, nextD);
    assert SentIds(sls[..j + 1], LineId) <= SentIds(sls, LineId);
    DistinctSentPrefix(SentIds(sls[..j + 1], LineId), SentIds(sls, LineId), nextL0, nextL0);
    DistinctSentSplit(SentIds(sls[..j], LineId), [sls[j].id], nextL0);
    var a, b := LinesDetailIds(sls[..j]), SentIds(sls[j].details, DetailId);
    assert forall x: int :: Some(x) in a || Some(x) in b ==> Some(x) in a + b;
    var a2, b2 := SentIds(sls[..j], LineId), [sls[j].id];
    assert forall x: int :: Some(x) in a2 || Some(x) in b2 ==> Some(x) in a2 + b2;
  }

  /**
   * What the loop over a chapter's lines keeps once the lines `pre` are stored:
   * where the ids came from, which rows were written, and that nothing else moved.
   */
  ghost predicate LinesSoFar(lines0: map<nat, MainLine>, details0: map<nat, DetailLine>,
                             lines: map<nat, MainLine>, details: map<nat, DetailLine>,
                             c: nat, pre: seq<SentLine>, ts: seq<nat>, dss: seq<seq<nat>>,
                             nextL0: nat, nextD0: nat, nextL: nat, nextD: nat)
  {
    |ts| == |pre| && |dss| == |pre| && nextL0 <= nextL && nextD0 <= nextD &&
    (forall x :: x in ts ==> Some(x as int) in SentIds(pre, LineId) || nextL0 <= x < nextL) &&
    (forall x :: x in UnionOf(dss) ==> Some(x as int) in LinesDetailIds(pre) || nextD0 <= x < nextD) &&
    (forall q :: 0 <= q < |ts| ==> ts[q] in lines && lines[ts[q]].chapterId == c) &&
    KeptOutside(lines0, lines, SetOf(ts)) && lines0.Keys <= lines.Keys &&
    KeptOutside(details0, details, UnionOf(dss)) &&
    (forall d :: d in UnionOf(dss) && d in details ==> details[d].mainTableLineId in ts) &&
    (forall d :: d in details0 && d !in UnionOf(dss) && details0[d].mainTableLineId !in ts ==> d in details)
  }

  /** The lines `pre` are stored as sent, each with exactly its details. */
  ghost predicate LinesExactSoFar(lines: map<nat, MainLine>, details: map<nat, DetailLine>, c: nat,
                                  pre: seq<SentLine>, ts: seq<nat>, dss: seq<seq<nat>>)
  {
    Distinct(ts) && |ts| == |pre| && |dss| == |pre| &&
    forall q :: 0 <= q < |ts| ==>
      ts[q] in lines && lines[ts[q]] == pre[q].mainTableLine.(id := ts[q], chapterId := c) &&
      LineExact(details, ts[q], dss[q], pre[q].details)
  }

  /** The state change of one `SyncLine` call, on values. */
  ghost predicate LineStored(linesB: map<nat, MainLine>, detailsB: map<nat, DetailLine>, nextLB: nat, nextDB: nat,
                             lines: map<nat, MainLine>, details: map<nat, DetailLine>, nextL: nat, nextD: nat,
                             c: nat, sl: SentLine, t: nat, ds: seq<nat>)
  {
    t == Target(linesB.Keys, sl.id, nextLB) &&
    lines == linesB[t := sl.mainTableLine.(id := t, chapterId := c)] &&
    nextL == (if t == nextLB then nextLB + 1 else nextLB) &&
    |ds| == |sl.details| && nextDB <= nextD &&
    (forall x :: x in ds ==> Some(x as int) in SentIds(sl.details, DetailId) || nextDB <= x < nextD) &&
    (forall d: int :: d in DetailsOfLine(details, t) <==> d in ds) &&
    KeptOutside(detailsB, details, SetOf(ds)) &&
    (forall d :: d in detailsB && d !in ds && detailsB[d].mainTableLineId != t ==> d in details) &&
    (DistinctSent(SentIds(sl.details, DetailId), nextDB) ==> Distinct(ds) && LineExact(details, t, ds, sl.details))
  }

  lemma {:induction false} LinesStep(lines0: map<nat, MainLine>, details0: map<nat, DetailLine>,
                                     linesB: map<nat, MainLine>, detailsB: map<nat, DetailLine>,
                                     lines: map<nat, MainLine>, details: map<nat, DetailLine>,
                                     c: nat, pre: seq<SentLine>, sl: SentLine, ts: seq<nat>, dss: seq<seq<nat>>, t: nat, ds: seq<nat>,
                                     nextL0: nat, nextD0: nat, nextLB: nat, nextDB: nat, nextL: nat, nextD: nat)
    requires LinesSoFar(lines0, details0, linesB, detailsB, c, pre, ts, dss, nextL0, nextD0, nextLB, nextDB)
    requires LineStored(linesB, detailsB, nextLB, nextDB, lines, details, nextL, nextD, c, sl, t, ds)
    ensures LinesSoFar(lines0, details0, lines, details, c, pre + [sl], ts + [t], dss + [ds], nextL0, nextD0, nextL, nextD)
  {
    assert (pre + [sl])[..|pre|] == pre;
    assert LinesDetailIds(pre + [sl]) == LinesDetailIds(pre) + SentIds(sl.details, DetailId);
    assert SentIds(pre + [sl], LineId) == SentIds(pre, LineId) + [sl.id];
    UnionOfAppend(dss, ds);
    forall d | d in UnionOf(dss + [ds]) && d in details
      ensures details[d].mainTableLineId in ts + [t]
    {
      if d !in ds {
        assert details[d] == detailsB[d];
      }
    }
  }

  lemma {:induction false} LinesExactStep(linesB: map<nat, MainLine>, detailsB: map<nat, DetailLine>,
                                          lines: map<nat, MainLine>, details: map<nat, DetailLine>,
                                          c: nat, pre: seq<SentLine>, sl: SentLine, ts: seq<nat>, dss: seq<seq<nat>>, t: nat, ds: seq<nat>,
                                          lines0: map<nat, MainLine>, details0: map<nat, DetailLine>,
                                          nextL0: nat, nextD0: nat, nextLB: nat, nextDB: nat, nextL: nat, nextD: nat)
    requires LinesSoFar(lines0, details0, linesB, detailsB, c, pre, ts, dss, nextL0, nextD0, nextLB, nextDB)
    requires LinesExactSoFar(linesB, detailsB, c, pre, ts, dss)
    requires LineStored(linesB, detailsB, nextLB, nextDB, lines, details, nextL, nextD, c, sl, t, ds)
    requires DistinctSent(SentIds(sl.details, DetailId), nextDB)
    requires forall x: int :: Some(x) in LinesDetailIds(pre) ==> Some(x) !in SentIds(sl.details, DetailId)
    requires forall x: int :: Some(x) in LinesDetailIds(pre) || Some(x) in SentIds(sl.details, DetailId) ==> x < nextD0
    requires forall x: int :: Some(x) in SentIds(pre, LineId) ==> Some(x) != sl.id
    requires forall x: int :: Some(x) in SentIds(pre, LineId) || Some(x) in [sl.id] ==> x < nextL0
    ensures LinesExactSoFar(lines, details, c, pre + [sl], ts + [t], dss + [ds])
  {
    TargetsApart(SetOf(ts), {t}, SentIds(pre, LineId), [sl.id], nextL0, nextLB);
    TargetsApart(UnionOf(dss), SetOf(ds), LinesDetailIds(pre), SentIds(sl.details, DetailId), nextD0, nextDB);
    LinesExactKept(detailsB, details, pre, ts, dss, t, ds);
    assert forall q :: 0 <= q < |ts| ==> lines[ts[q]] == linesB[ts[q]];
    LinesExactAppend(lines, details, c, pre, sl, ts, dss, t, ds);
  }

  /** The lines stored before one more line stays exact when that line's details are written. */
  lemma {:induction false} LinesExactKept(detailsB: map<nat, DetailLine>, details: map<nat, DetailLine>,
                                          pre: seq<SentLine>, ts: seq<nat>, dss: seq<seq<nat>>, t: nat, ds: seq<nat>)
    requires |ts| == |pre| && |dss| == |pre| && t !in ts
    requires forall q :: 0 <= q < |ts| ==> LineExact(detailsB, ts[q], dss[q], pre[q].details)
    requires UnionOf(dss) !! SetOf(ds)
    requires KeptOutside(detailsB, details, SetOf(ds))
    requires forall d :: d in detailsB && d !in SetOf(ds) && detailsB[d].mainTableLineId !in {t} ==> d in details
    requires forall d :: d in SetOf(ds) && d in details ==> details[d].mainTableLineId in {t}
    ensures forall q :: 0 <= q < |ts| ==> LineExact(details, ts[q], dss[q], pre[q].details)
  {
    forall q | 0 <= q < |ts|
      ensures LineExact(details, ts[q], dss[q], pre[q].details)
    {
      assert SetOf(dss[q]) <= UnionOf(dss);
      LineExactKept(detailsB, details, ts[q], dss[q], pre[q].details, {t}, SetOf(ds));
    }
  }

  /** Exact lines so far and one more exact line, under a fresh id, are exact lines so far. */
  lemma {:induction false} LinesExactAppend(lines: map<nat, MainLine>, details: map<nat, DetailLine>, c: nat,
                                            pre: seq<SentLine>, sl: SentLine, ts: seq<nat>, dss: seq<seq<nat>>, t: nat, ds: seq<nat>)
    requires Distinct(ts) && t !in ts && |ts| == |pre| && |dss| == |pre|
    requires forall q :: 0 <= q < |ts| ==>
      ts[q] in lines && lines[ts[q]] == pre[q].mainTableLine.(id := ts[q], chapterId := c) &&
      LineExact(details, ts[q], dss[q], pre[q].details)
    requires t in lines && lines[t] == sl.mainTableLine.(id := t, chapterId := c) && LineExact(details, t, ds, sl.details)
    ensures LinesExactSoFar(lines, details, c, pre + [sl], ts + [t], dss + [ds])
  {
    var e, ts', dss' := pre + [sl], ts + [t], dss + [ds];
    assert forall q :: 0 <= q < |ts| ==> e[q] == pre[q] && ts'[q] == ts[q] && dss'[q] == dss[q];
    assert e[|ts|] == sl && ts'[|ts|] == t && dss'[|ts|] == ds;
  }

  /** One turn of the loop over a chapter's sent lines: the `j`-th line stored. */
  method SyncLineTurn(db: Database, c: nat, sls: seq<SentLine>, j: nat, ghost ts: seq<nat>, ghost dss: seq<seq<nat>>,
                      ghost lines0: map<nat, MainLine>, ghost details0: map<nat, DetailLine>, ghost nextL0: nat, ghost nextD0: nat)
    returns (t: nat, ghost ds: seq<nat>)
    requires db.Valid() && j < |sls|
    requires LinesSoFar(lines0, details0, db.lines, db.details, c, sls[..j], ts, dss, nextL0, nextD0, db.nextLineId, db.nextDetailId)
    requires DistinctSent(SentIds(sls, LineId), nextL0) && DistinctSent(LinesDetailIds(sls), nextD0) ==>
      LinesExactSoFar(db.lines, db.details, c, sls[..j], ts, dss)
    modifies db
    ensures db.Valid()
    ensures db.projects == old(db.projects) && db.chapters == old(db.chapters) && db.nextChapterId == old(db.nextChapterId)
    ensures LinesSoFar(lines0, details0, db.lines, db.details, c, sls[..j + 1], ts + [t], dss + [ds], nextL0, nextD0, db.nextLineId, db.nextDetailId)
    ensures DistinctSent(SentIds(sls, LineId), nextL0) && DistinctSent(LinesDetailIds(sls), nextD0) ==>
      LinesExactSoFar(db.lines, db.details, c, sls[..j + 1], ts + [t], dss + [ds])
  {
    ghost var linesB, detailsB, nextLB, nextDB := db.lines, db.details, db.nextLineId, db.nextDetailId;
    t, ds := SyncLine(db, c, sls[j]);
    assert LineStored(linesB, detailsB, nextLB, nextDB, db.lines, db.details, db.nextLineId, db.nextDetailId, c, sls[j], t, ds);
    assert sls[..j + 1] == sls[..j] + [sls[j]];
    LinesStep(lines0, details0, linesB, detailsB, db.lines, db.details, c, sls[..j], sls[j], ts, dss, t, ds,
              nextL0, nextD0, nextLB, nextDB, db.nextLineId, db.nextDetailId);
    if DistinctSent(SentIds(sls, LineId), nextL0) && DistinctSent(LinesDetailIds(sls), nextD0) {
      LineStepFits(sls, j, nextL0, nextD0, nextDB);
      LinesExactStep(linesB, detailsB, db.lines, db.details, c, sls[..j], sls[j], ts, dss, t, ds,
                     lines0, details0, nextL0, nextD0, nextLB, nextDB, db.nextLineId, db.nextDetailId);
    }
  }

  /** The loop over a chapter's sent lines, before the cleanup. */
  method SyncLines(db: Database, c: nat, sls: seq<SentLine>) returns (ts: seq<nat>, ghost dss: seq<seq<nat>>)
    requires db.Valid()
    modifies db
    ensures db.Valid()
    ensures db.projects == old(db.projects) && db.chapters == old(db.chapters) && db.nextChapterId == old(db.nextChapterId)
    ensures LinesSoFar(old(db.lines), old(db.details), db.lines, db.details, c, sls, ts, dss,
                       old(db.nextLineId), old(db.nextDetailId), db.nextLineId, db.nextDetailId)
    ensures DistinctSent(SentIds(sls, LineId), old(db.nextLineId)) && DistinctSent(LinesDetailIds(sls), old(db.nextDetailId)) ==>
      LinesExactSoFar(db.lines, db.details, c, sls, ts, dss)
  {
    ghost var lines0, details0, nextL0, nextD0 := db.lines, db.details, db.nextLineId, db.nextDetailId;
    ghost var fits := DistinctSent(SentIds(sls, LineId), nextL0) && DistinctSent(LinesDetailIds(sls), nextD0);
    ts, dss := [], [];
    for j := 0 to |sls|
      invariant db.Valid()
      invariant db.projects == old(db.projects) && db.chapters == old(db.chapters) && db.nextChapterId == old(db.nextChapterId)
      invariant LinesSoFar(lines0, details0, db.lines, db.details, c, sls[..j], ts, dss, nextL0, nextD0, db.nextLineId, db.nextDetailId)
      invariant fits ==> LinesExactSoFar(db.lines, db.details, c, sls[..j], ts, dss)
    {
      var t;
      ghost var ds;
      t, ds := SyncLineTurn(db, c, sls, j, ts, dss, lines0, details0, nextL0, nextD0);
      ts, dss := ts + [t], dss + [ds];
    }
    assert sls[..|sls|] == sls;
  }

  /**
   * The state change of synchronising one chapter's lines, on values: the
   * counters only grow; every stored line or detail id was sent or is fresh;
   * the chapter's lines are exactly the stored ones; rows outside the stored
   * ones are unchanged, and are kept unless they belonged to the chapter; and,
   * with distinct sent ids read back, the chapter holds exactly its sent lines.
   */
  ghost predicate ChapterStored(linesB: map<nat, MainLine>, detailsB: map<nat, DetailLine>, nextLB: nat, nextDB: nat,
                                lines: map<nat, MainLine>, details: map<nat, DetailLine>, nextL: nat, nextD: nat,
                                c: nat, sls: seq<SentLine>, ts: seq<nat>, dss: seq<seq<nat>>)
  {
    nextLB <= nextL && nextDB <= nextD && |ts| == |sls| && |dss| == |sls| &&
    (forall x :: x in ts ==> Some(x as int) in SentIds(sls, LineId) || nextLB <= x < nextL) &&
    (forall x :: x in UnionOf(dss) ==> Some(x as int) in LinesDetailIds(sls) || nextDB <= x < nextD) &&
    (forall l: int :: l in LinesOfChapter(lines, c) <==> l in ts) &&
    KeptOutside(linesB, lines, SetOf(ts)) &&
    (forall l :: l in linesB && l !in ts && linesB[l].chapterId != c ==> l in lines) &&
    KeptOutside(detailsB, details, UnionOf(dss)) &&
    (forall d :: d in UnionOf(dss) && d in details ==> details[d].mainTableLineId in ts) &&
    (forall d :: (d in detailsB && d !in UnionOf(dss) && detailsB[d].mainTableLineId !in ts &&
                  detailsB[d].mainTableLineId !in LinesOfChapter(linesB, c)) ==> d in details) &&
    (DistinctSent(SentIds(sls, LineId), nextLB) && DistinctSent(LinesDetailIds(sls), nextDB) ==>
      ChapterExact(lines, details, c, ts, dss, sls))
  }

  /**
   * A chapter's sent lines, then the cleanup. The chapter's lines are then
   * exactly the ones stored; other rows change only where a sent id names them
   * or they belonged to the chapter.
   */
  method SyncChapterLines(db: Database, c: nat, sls: seq<SentLine>) returns (ts: seq<nat>, ghost dss: seq<seq<nat>>)
    requires db.Valid()
    modifies db
    ensures db.Valid()
    ensures db.projects == old(db.projects) && db.chapters == old(db.chapters) && db.nextChapterId == old(db.nextChapterId)
    ensures ChapterStored(old(db.lines), old(db.details), old(db.nextLineId), old(db.nextDetailId),
                          db.lines, db.details, db.nextLineId, db.nextDetailId, c, sls, ts, dss)
    ensures c in db.chapters && LinesLinked(db.chapters, old(db.lines)) ==> LinesLinked(db.chapters, db.lines)
    ensures DetailsLinked(old(db.lines), old(db.details)) ==> DetailsLinked(db.lines, db.details)
  {
    ghost var lines0, details0 := db.lines, db.details;
    ts, dss := SyncLines(db, c, sls);
    ghost var linesL, detailsL := db.lines, db.details;
    if DetailsLinked(lines0, details0) {
      forall d | d in detailsL
        ensures detailsL[d].mainTableLineId in linesL
      {
        if d in UnionOf(dss) {
          var q :| 0 <= q < |ts| && ts[q] == detailsL[d].mainTableLineId;
        }
      }
    }
    RemoveUnsentLines(db, c, SetOf(ts));
    ghost var removed := LinesOfChapter(linesL, c) - SetOf(ts);
    assert removed <= LinesOfChapter(lines0, c);
    if DistinctSent(SentIds(sls, LineId), old(db.nextLineId)) && DistinctSent(LinesDetailIds(sls), old(db.nextDetailId)) {
      forall q | 0 <= q < |ts|
        ensures LineExact(db.details, ts[q], dss[q], sls[q].details)
      {
        assert forall d :: d in DetailsUnder(detailsL, removed) ==> detailsL[d].mainTableLineId != ts[q];
      }
    }
  }

  /** The detail rows of several chapters' lines. */
  function DeepUnion(dsss: seq<seq<seq<nat>>>): (r: set<nat>)
    ensures forall q, x :: 0 <= q < |dsss| && x in UnionOf(dsss[q]) ==> x in r
    ensures forall x :: x in r ==> exists q :: 0 <= q < |dsss| && x in UnionOf(dsss[q])
  {
    set q, x | 0 <= q < |dsss| && x in UnionOf(dsss[q]) :: x
  }

  lemma {:induction false} DeepUnionAppend(dsss: seq<seq<seq<nat>>>, dss: seq<seq<nat>>)
    ensures DeepUnion(dsss + [dss]) == DeepUnion(dsss) + UnionOf(dss)
  {
    var e := dsss + [dss];
    assert forall q :: 0 <= q < |dsss| ==> e[q] == dsss[q];
    assert e[|dsss|] == dss;
    forall x | x in DeepUnion(e)
      ensures x in DeepUnion(dsss) + UnionOf(dss)
    {
      var q :| 0 <= q < |e| && x in UnionOf(e[q]);
      if q < |dsss| {
        assert x in UnionOf(dsss[q]);
      }
    }
  }

  /** A chapter's lines stay exact while another chapter, with other line and detail rows, is synchronised. */
  lemma {:induction false} ChapterExactKept(linesB: map<nat, MainLine>, detailsB: map<nat, DetailLine>, nextLB: nat, nextDB: nat,
                                            lines: map<nat, MainLine>, details: map<nat, DetailLine>, nextL: nat, nextD: nat,
                                            ci: nat, slsi: seq<SentLine>, tsi: seq<nat>, dssi: seq<seq<nat>>,
                                            cq: nat, slsq: seq<SentLine>, tsq: seq<nat>, dssq: seq<seq<nat>>)
    requires ChapterStored(linesB, detailsB, nextLB, nextDB, lines, details, nextL, nextD, ci, slsi, tsi, dssi)
    requires ChapterExact(linesB, detailsB, cq, tsq, dssq, slsq)
    requires cq != ci && SetOf(tsi) !! SetOf(tsq) && UnionOf(dssi) !! UnionOf(dssq)
    ensures ChapterExact(lines, details, cq, tsq, dssq, slsq)
  {
    var others := SetOf(tsi) + LinesOfChapter(linesB, ci);
    forall j | 0 <= j < |tsq|
      ensures tsq[j] in lines && lines[tsq[j]] == linesB[tsq[j]]
      ensures LineExact(details, tsq[j], dssq[j], slsq[j].details)
    {
      assert tsq[j] in SetOf(tsq);
      assert tsq[j] !in others;
      assert SetOf(dssq[j]) <= UnionOf(dssq);
      LineExactKept(detailsB, details, tsq[j], dssq[j], slsq[j].details, others, UnionOf(dssi));
    }
    forall l: int
      ensures l in LinesOfChapter(lines, cq) <==> l in tsq
    {
      if l in LinesOfChapter(lines, cq) {
        assert l !in SetOf(tsi);
      }
    }
  }

  /** The unit hypothesis split for chapter `i`: its line and detail ids are distinct and apart from those of the chapters before it. */
  lemma {:induction false} ChapterStepFits(sent: seq<SentChapter>, i: int, nextL0: int, nextD0: int, nextL: int, nextD: int)
    requires 0 <= i < |sent| && nextL0 <= nextL && nextD0 <= nextD
    requires DistinctSent(AllLineIds(sent), nextL0) && DistinctSent(AllDetailIds(sent), nextD0)
    ensures AllLineIds(sent[..i + 1]) == AllLineIds(sent[..i]) + SentIds(sent[i].lines, LineId)
    ensures AllDetailIds(sent[..i + 1]) == AllDetailIds(sent[..i]) + LinesDetailIds(sent[i].lines)
    ensures DistinctSent(SentIds(sent[i].lines, LineId), nextL) && DistinctSent(LinesDetailIds(sent[i].lines), nextD)
    ensures forall x: int :: Some(x) in AllLineIds(sent[..i]) ==> Some(x) !in SentIds(sent[i].lines, LineId)
    ensures forall x: int :: Some(x) in AllLineIds(sent[..i]) || Some(x) in SentIds(sent[i].lines, LineId) ==> x < nextL0
    ensures forall x: int :: Some(x) in AllDetailIds(sent[..i]) ==> Some(x) !in LinesDetailIds(sent[i].lines)
    ensures forall x: int :: Some(x) in AllDetailIds(sent[..i]) || Some(x) in LinesDetailIds(sent[i].lines) ==> x < nextD0
  {
    assert sent[..i + 1][..i] == sent[..i] && sent[..i + 1][i] == sent[i];
    AllLineIdsPrefix(sent, i + 1);
    AllDetailIdsPrefix(sent, i + 1);
    DistinctSentPrefix(AllLineIds(sent[..i + 1]), AllLineIds(sent), nextL0, nextL0);
    DistinctSentPrefix(AllDetailIds(sent[..i + 1]), AllDetailIds(sent), nextD0, nextD0);
    var a, b := AllLineIds(sent[..i]), SentIds(sent[i].lines, LineId);
    DistinctSentSplit(a, b, nextL0);
    DistinctSentPrefix(b, b, nextL0, nextL);
    assert forall x: int :: Some(x) in a || Some(x) in b ==> Some(x) in a + b;
    var a2, b2 := AllDetailIds(sent[..i]), LinesDetailIds(sent[i].lines);
    DistinctSentSplit(a2, b2, nextD0);
    DistinctSentPrefix(b2, b2, nextD0, nextD);
    assert forall x: int :: Some(x) in a2 || Some(x) in b2 ==> Some(x) in a2 + b2;
  }

  /** Where the line and detail ids of the chapters handled so far came from. */
  ghost predicate ChaptersSoFar(pre: seq<SentChapter>, tss: seq<seq<nat>>, dsss: seq<seq<seq<nat>>>,
                                nextL0: nat, nextD0: nat, nextL: nat, nextD: nat)
  {
    |tss| == |pre| && |dsss| == |pre| && nextL0 <= nextL && nextD0 <= nextD &&
    (forall x :: x in UnionOf(tss) ==> Some(x as int) in AllLineIds(pre) || nextL0 <= x < nextL) &&
    (forall x :: x in DeepUnion(dsss) ==> Some(x as int) in AllDetailIds(pre) || nextD0 <= x < nextD)
  }

  /** The chapters handled so far each hold exactly their sent lines. */
  ghost predicate ChaptersExactSoFar(lines: map<nat, MainLine>, details: map<nat, DetailLine>, saved: seq<nat>,
                                     pre: seq<SentChapter>, tss: seq<seq<nat>>, dsss: seq<seq<seq<nat>>>)
  {
    |tss| == |pre| && |dsss| == |pre| && |pre| <= |saved| &&
    forall q :: 0 <= q < |pre| ==> ChapterExact(lines, details, saved[q], tss[q], dsss[q], pre[q].lines)
  }

  lemma {:induction false} ChaptersStep(pre: seq<SentChapter>, sc: SentChapter, tss: seq<seq<nat>>, dsss: seq<seq<seq<nat>>>,
                                        ts: seq<nat>, dss: seq<seq<nat>>, c: nat,
                                        linesB: map<nat, MainLine>, detailsB: map<nat, DetailLine>, lines: map<nat, MainLine>, details: map<nat, DetailLine>,
                                        nextL0: nat, nextD0: nat, nextLB: nat, nextDB: nat, nextL: nat, nextD: nat)
    requires ChaptersSoFar(pre, tss, dsss, nextL0, nextD0, nextLB, nextDB)
    requires ChapterStored(linesB, detailsB, nextLB, nextDB, lines, details, nextL, nextD, c, sc.lines, ts, dss)
    ensures ChaptersSoFar(pre + [sc], tss + [ts], dsss + [dss], nextL0, nextD0, nextL, nextD)
  {
    assert (pre + [sc])[..|pre|] == pre;
    assert AllLineIds(pre + [sc]) == AllLineIds(pre) + SentIds(sc.lines, LineId);
    assert AllDetailIds(pre + [sc]) == AllDetailIds(pre) + LinesDetailIds(sc.lines);
    UnionOfAppend(tss, ts);
    DeepUnionAppend(dsss, dss);
  }

  /** The chapters handled before stay exact while the next one is synchronised. */
  lemma {:induction false} EarlierChaptersKept(saved: seq<nat>, pre: seq<SentChapter>, sc: SentChapter, tss: seq<seq<nat>>, dsss: seq<seq<seq<nat>>>,
                                               ts: seq<nat>, dss: seq<seq<nat>>,
                                               linesB: map<nat, MainLine>, detailsB: map<nat, DetailLine>, lines: map<nat, MainLine>, details: map<nat, DetailLine>,
                                               nextL0: nat, nextD0: nat, nextLB: nat, nextDB: nat, nextL: nat, nextD: nat)
    requires |pre| < |saved| && Distinct(saved)
    requires ChaptersSoFar(pre, tss, dsss, nextL0, nextD0, nextLB, nextDB)
    requires ChaptersExactSoFar(linesB, detailsB, saved, pre, tss, dsss)
    requires ChapterStored(linesB, detailsB, nextLB, nextDB, lines, details, nextL, nextD, saved[|pre|], sc.lines, ts, dss)
    requires forall x: int :: Some(x) in AllLineIds(pre) ==> Some(x) !in SentIds(sc.lines, LineId)
    requires forall x: int :: Some(x) in AllLineIds(pre) || Some(x) in SentIds(sc.lines, LineId) ==> x < nextL0
    requires forall x: int :: Some(x) in AllDetailIds(pre) ==> Some(x) !in LinesDetailIds(sc.lines)
    requires forall x: int :: Some(x) in AllDetailIds(pre) || Some(x) in LinesDetailIds(sc.lines) ==> x < nextD0
    ensures forall q :: 0 <= q < |pre| ==> ChapterExact(lines, details, saved[q], tss[q], dsss[q], pre[q].lines)
  {
    var i := |pre|;
    TargetsApart(UnionOf(tss), SetOf(ts), AllLineIds(pre), SentIds(sc.lines, LineId), nextL0, nextLB);
    TargetsApart(DeepUnion(dsss), UnionOf(dss), AllDetailIds(pre), LinesDetailIds(sc.lines), nextD0, nextDB);
    forall q | 0 <= q < i
      ensures ChapterExact(lines, details, saved[q], tss[q], dsss[q], pre[q].lines)
    {
      assert SetOf(tss[q]) <= UnionOf(tss);
      assert UnionOf(dsss[q]) <= DeepUnion(dsss);
      ChapterExactKept(linesB, detailsB, nextLB, nextDB, lines, details, nextL, nextD, saved[i], sc.lines, ts, dss,
                       saved[q], pre[q].lines, tss[q], dsss[q]);
    }
  }

  lemma {:induction false} ChaptersExactStep(saved: seq<nat>, pre: seq<SentChapter>, sc: SentChapter, tss: seq<seq<nat>>, dsss: seq<seq<seq<nat>>>,
                                             ts: seq<nat>, dss: seq<seq<nat>>,
                                             linesB: map<nat, MainLine>, detailsB: map<nat, DetailLine>, lines: map<nat, MainLine>, details: map<nat, DetailLine>,
                                             nextL0: nat, nextD0: nat, nextLB: nat, nextDB: nat, nextL: nat, nextD: nat)
    requires |pre| < |saved| && Distinct(saved)
    requires ChaptersSoFar(pre, tss, dsss, nextL0, nextD0, nextLB, nextDB)
    requires ChaptersExactSoFar(linesB, detailsB, saved, pre, tss, dsss)
    requires ChapterStored(linesB, detailsB, nextLB, nextDB, lines, details, nextL, nextD, saved[|pre|], sc.lines, ts, dss)
    requires DistinctSent(SentIds(sc.lines, LineId), nextLB) && DistinctSent(LinesDetailIds(sc.lines), nextDB)
    requires forall x: int :: Some(x) in AllLineIds(pre) ==> Some(x) !in SentIds(sc.lines, LineId)
    requires forall x: int :: Some(x) in AllLineIds(pre) || Some(x) in SentIds(sc.lines, LineId) ==> x < nextL0
    requires forall x: int :: Some(x) in AllDetailIds(pre) ==> Some(x) !in LinesDetailIds(sc.lines)
    requires forall x: int :: Some(x) in AllDetailIds(pre) || Some(x) in LinesDetailIds(sc.lines) ==> x < nextD0
    ensures ChaptersExactSoFar(lines, details, saved, pre + [sc], tss + [ts], dsss + [dss])
  {
    EarlierChaptersKept(saved, pre, sc, tss, dsss, ts, dss, linesB, detailsB, lines, details,
                        nextL0, nextD0, nextLB, nextDB, nextL, nextD);
    ChaptersExactAppend(lines, details, saved, pre, sc, tss, dsss, ts, dss);
  }

  /** Exact chapters so far and one more exact chapter are exact chapters so far. */
  lemma {:induction false} ChaptersExactAppend(lines: map<nat, MainLine>, details: map<nat, DetailLine>, saved: seq<nat>,
                                               pre: seq<SentChapter>, sc: SentChapter, tss: seq<seq<nat>>, dsss: seq<seq<seq<nat>>>,
                                               ts: seq<nat>, dss: seq<seq<nat>>)
    requires |tss| == |pre| && |dsss| == |pre| && |pre| < |saved|
    requires forall q :: 0 <= q < |pre| ==> ChapterExact(lines, details, saved[q], tss[q], dsss[q], pre[q].lines)
    requires ChapterExact(lines, details, saved[|pre|], ts, dss, sc.lines)
    ensures ChaptersExactSoFar(lines, details, saved, pre + [sc], tss + [ts], dsss + [dss])
  {
    var i := |pre|;
    var e, tss', dsss' := pre + [sc], tss + [ts], dsss + [dss];
    assert e[i] == sc && tss'[i] == ts && dsss'[i] == dss;
    assert forall q :: 0 <= q < i ==> e[q] == pre[q] && tss'[q] == tss[q] && dsss'[q] == dsss[q];
  }

  /** One turn of the third loop, on values. */
  lemma {:induction false} ChapterLoopStep(saved: seq<nat>, sent: seq<SentChapter>, i: nat, tss: seq<seq<nat>>, dsss: seq<seq<seq<nat>>>,
                                           ts: seq<nat>, dss: seq<seq<nat>>,
                                           linesB: map<nat, MainLine>, detailsB: map<nat, DetailLine>, lines: map<nat, MainLine>, details: map<nat, DetailLine>,
                                           nextL0: nat, nextD0: nat, nextLB: nat, nextDB: nat, nextL: nat, nextD: nat)
    requires i < |sent| && |saved| == |sent|
    requires ChaptersSoFar(sent[..i], tss, dsss, nextL0, nextD0, nextLB, nextDB)
    requires ChapterStored(linesB, detailsB, nextLB, nextDB, lines, details, nextL, nextD, saved[i], sent[i].lines, ts, dss)
    requires Distinct(saved) && DistinctSent(AllLineIds(sent), nextL0) && DistinctSent(AllDetailIds(sent), nextD0) ==>
      ChaptersExactSoFar(linesB, detailsB, saved, sent[..i], tss, dsss)
    ensures ChaptersSoFar(sent[..i + 1], tss + [ts], dsss + [dss], nextL0, nextD0, nextL, nextD)
    ensures Distinct(saved) && DistinctSent(AllLineIds(sent), nextL0) && DistinctSent(AllDetailIds(sent), nextD0) ==>
      ChaptersExactSoFar(lines, details, saved, sent[..i + 1], tss + [ts], dsss + [dss])
  {
    assert sent[..i + 1] == sent[..i] + [sent[i]];
    ChaptersStep(sent[..i], sent[i], tss, dsss, ts, dss, saved[i], linesB, detailsB, lines, details,
                 nextL0, nextD0, nextLB, nextDB, nextL, nextD);
    if Distinct(saved) && DistinctSent(AllLineIds(sent), nextL0) && DistinctSent(AllDetailIds(sent), nextD0) {
      ChapterStepFits(sent, i, nextL0, nextD0, nextLB, nextDB);
      ChaptersExactStep(saved, sent[..i], sent[i], tss, dsss, ts, dss, linesB, detailsB, lines, details,
                        nextL0, nextD0, nextLB, nextDB, nextL, nextD);
    }
  }

  /** One turn of the third loop: the lines of the `i`-th sent chapter synchronised. */
  method SyncChapterTurn(db: Database, saved: seq<nat>, sent: seq<SentChapter>, i: nat,
                         ghost tss: seq<seq<nat>>, ghost dsss: seq<seq<seq<nat>>>, ghost nextL0: nat, ghost nextD0: nat)
    returns (ghost tss': seq<seq<nat>>, ghost dsss': seq<seq<seq<nat>>>)
    requires db.Valid() && i < |sent| && |saved| == |sent|
    requires ChaptersSoFar(sent[..i], tss, dsss, nextL0, nextD0, db.nextLineId, db.nextDetailId)
    requires Distinct(saved) && DistinctSent(AllLineIds(sent), nextL0) && DistinctSent(AllDetailIds(sent), nextD0) ==>
      ChaptersExactSoFar(db.lines, db.details, saved, sent[..i], tss, dsss)
    modifies db
    ensures db.Valid()
    ensures db.projects == old(db.projects) && db.chapters == old(db.chapters) && db.nextChapterId == old(db.nextChapterId)
    ensures ChaptersSoFar(sent[..i + 1], tss', dsss', nextL0, nextD0, db.nextLineId, db.nextDetailId)
    ensures Distinct(saved) && DistinctSent(AllLineIds(sent), nextL0) && DistinctSent(AllDetailIds(sent), nextD0) ==>
      ChaptersExactSoFar(db.lines, db.details, saved, sent[..i + 1], tss', dsss')
    ensures saved[i] in db.chapters && LinesLinked(db.chapters, old(db.lines)) ==> LinesLinked(db.chapters, db.lines)
    ensures DetailsLinked(old(db.lines), old(db.details)) ==> DetailsLinked(db.lines, db.details)
  {
    ghost var linesB, detailsB, nextLB, nextDB := db.lines, db.details, db.nextLineId, db.nextDetailId;
    var ts;
    ghost var dss;
    ts, dss := SyncChapterLines(db, saved[i], sent[i].lines);
    ChapterLoopStep(saved, sent, i, tss, dsss, ts, dss, linesB, detailsB, db.lines, db.details,
                    nextL0, nextD0, nextLB, nextDB, db.nextLineId, db.nextDetailId);
    tss', dsss' := tss + [ts], dsss + [dss];
  }

  /**
   * The third loop: every sent chapter's lines synchronised under the id it was
   * stored with. When the chapter ids are distinct and the sent line and detail
   * ids distinct and read back, every sent chapter holds exactly its sent lines,
   * each with exactly its sent details, in the order sent.
   */
  method SyncChapters(db: Database, saved: seq<nat>, sent: seq<SentChapter>) returns (ghost tss: seq<seq<nat>>, ghost dsss: seq<seq<seq<nat>>>)
    requires db.Valid() && |saved| == |sent|
    modifies db
    ensures db.Valid()
    ensures db.projects == old(db.projects) && db.chapters == old(db.chapters) && db.nextChapterId == old(db.nextChapterId)
    ensures |tss| == |sent| && |dsss| == |sent|
    ensures Distinct(saved) && DistinctSent(AllLineIds(sent), old(db.nextLineId)) && DistinctSent(AllDetailIds(sent), old(db.nextDetailId)) ==>
      forall i :: 0 <= i < |sent| ==> ChapterExact(db.lines, db.details, saved[i], tss[i], dsss[i], sent[i].lines)
    ensures (forall i :: 0 <= i < |saved| ==> saved[i] in db.chapters) && LinesLinked(db.chapters, old(db.lines)) ==>
      LinesLinked(db.chapters, db.lines)
    ensures DetailsLinked(old(db.lines), old(db.details)) ==> DetailsLinked(db.lines, db.details)
  {
    ghost var nextL0, nextD0 := db.nextLineId, db.nextDetailId;
    ghost var fits := Distinct(saved) && DistinctSent(AllLineIds(sent), nextL0) && DistinctSent(AllDetailIds(sent), nextD0);
    ghost var linked := (forall i :: 0 <= i < |saved| ==> saved[i] in db.chapters) && LinesLinked(db.chapters, db.lines);
    ghost var detailsLinked := DetailsLinked(db.lines, db.details);
    tss, dsss := [], [];
    for i := 0 to |sent|
      invariant db.Valid()
      invariant db.projects == old(db.projects) && db.chapters == old(db.chapters) && db.nextChapterId == old(db.nextChapterId)
      invariant ChaptersSoFar(sent[..i], tss, dsss, nextL0, nextD0, db.nextLineId, db.nextDetailId)
      invariant fits ==> ChaptersExactSoFar(db.lines, db.details, saved, sent[..i], tss, dsss)
      invariant linked ==> LinesLinked(db.chapters, db.lines)
      invariant detailsLinked ==> DetailsLinked(db.lines, db.details)
    {
      tss, dsss := SyncChapterTurn(db, saved, sent, i, tss, dsss, nextL0, nextD0);
    }
    assert sent[..|sent|] == sent;
  }

  // ---------------------------------------------------------------------
  // syncProject
  // ---------------------------------------------------------------------

  /** A chapter outside a cascade keeps its lines and their details. */
  lemma {:induction false} ChapterExactAfterCascade(lines: map<nat, MainLine>, details: map<nat, DetailLine>, c: nat,
                                                    ts: seq<nat>, dss: seq<seq<nat>>, sls: seq<SentLine>, gone: set<nat>)
    requires ChapterExact(lines, details, c, ts, dss, sls) && c !in gone
    ensures var lg := LinesUnder(lines, gone);
      ChapterExact(RemoveKeys(lines, lg), RemoveKeys(details, DetailsUnder(details, lg)), c, ts, dss, sls)
  {
    var lg := LinesUnder(lines, gone);
    var lines', details' := RemoveKeys(lines, lg), RemoveKeys(details, DetailsUnder(details, lg));
    forall j | 0 <= j < |ts|
      ensures LineExact(details', ts[j], dss[j], sls[j].details)
    {
      assert ts[j] !in lg;
    }
  }

  /**
   * The ids a client sends when it sends back what it read: chapter, line and
   * detail ids each pairwise different and below their table's counter.
   */
  ghost predicate ReadBack(sent: seq<SentChapter>, nextC: int, nextL: int, nextD: int)
  {
    DistinctSent(SentIds(sent, ChapterId), nextC) && DistinctSent(AllLineIds(sent), nextL) && DistinctSent(AllDetailIds(sent), nextD)
  }

  /** The first two loops keep every reference: stored chapters belong to the project, and their parents are stored chapters. */
  lemma {:induction false} PlacingKeepsLinked(projects: map<nat, Project>, chs0: map<nat, Chapter>, chs1: map<nat, Chapter>,
                                              lines: map<nat, MainLine>, pid: nat, saved: seq<nat>)
    requires ChaptersLinked(projects, chs0) && LinesLinked(chs0, lines) && pid in projects
    requires chs0.Keys <= chs1.Keys
    requires forall k :: k in chs1 && k !in saved ==> k in chs0 && chs1[k] == chs0[k]
    requires forall k :: k in saved ==>
      (k in chs1 && chs1[k].projectId == pid && (chs1[k].parentId.Some? ==> chs1[k].parentId.value in saved))
    ensures ChaptersLinked(projects, chs1) && LinesLinked(chs1, lines)
  {
  }

  /** The first two loops on values: the rows they leave in the chapter table. */
  lemma {:induction false} PlaceOutcome(chs0: map<nat, Chapter>, next0: nat, pid: int, sent: seq<SentChapter>,
                                        chs1: map<nat, Chapter>, next1: nat, saved: seq<nat>, chs2: map<nat, Chapter>)
    requires forall c :: c in chs0 ==> c < next0
    requires (chs1, next1, saved) == SaveAll(chs0, next0, pid, sent)
    requires chs2 == LinkAll(chs1, pid, sent, saved, TempIds(sent, saved))
    ensures chs2.Keys == chs0.Keys + SetOf(saved)
    ensures forall k :: k in chs2 && k !in saved ==> k in chs0 && chs2[k] == chs0[k]
    ensures forall k :: k in saved ==>
      (k in chs2 && chs2[k].projectId == pid && (chs2[k].parentId.Some? ==> chs2[k].parentId.value in saved))
  {
    assert sent[..|sent|] == sent && saved[..|saved|] == saved;
    SaveAllMeaning(chs0, next0, pid, sent, |sent|);
    assert SavedRows(chs0, next0, chs1, next1, pid, sent, saved);
    SavedRowsKeys(chs0, next0, chs1, next1, pid, sent, saved);
    LinkAllFrame(chs1, pid, sent, saved, TempIds(sent, saved), |sent|);
  }

  /** The rows after storing are the rows before and the stored ones. */
  lemma {:induction false} SavedRowsKeys(chs0: map<nat, Chapter>, next0: nat, chs: map<nat, Chapter>, next: nat,
                                         pid: int, sent: seq<SentChapter>, saved: seq<nat>)
    requires SavedRows(chs0, next0, chs, next, pid, sent, saved)
    ensures chs.Keys == chs0.Keys + SetOf(saved)
  {
    forall k | k in chs0.Keys + SetOf(saved)
      ensures k in chs
    {
      if k !in chs0 {
        var q :| 0 <= q < |saved| && saved[q] == k;
      }
    }
  }

  /** The first two loops on values: with distinct sent ids, each sent chapter is stored as sent, with its parent resolved. */
  lemma {:induction false} PlaceOutcomePlaced(chs0: map<nat, Chapter>, next0: nat, pid: int, sent: seq<SentChapter>,
                                              chs1: map<nat, Chapter>, next1: nat, saved: seq<nat>, chs2: map<nat, Chapter>)
    requires forall c :: c in chs0 ==> c < next0
    requires (chs1, next1, saved) == SaveAll(chs0, next0, pid, sent)
    requires chs2 == LinkAll(chs1, pid, sent, saved, TempIds(sent, saved))
    requires DistinctSent(SentIds(sent, ChapterId), next0)
    ensures Distinct(saved) && forall i :: 0 <= i < |saved| ==>
      saved[i] in chs2 && chs2[saved[i]] == Placed(sent[i], saved[i], pid).(parentId := ParentOf(sent[i], TempIds(sent, saved)))
  {
    assert sent[..|sent|] == sent && saved[..|saved|] == saved;
    SaveAllPlaced(chs0, next0, pid, sent, |sent|);
    assert SavedPlaced(next0, chs1, pid, sent, saved);
    LinkAllPlaced(chs1, pid, sent, saved, TempIds(sent, saved), |sent|);
  }

  /**
   * The first two loops together: the sent chapters stored in the project and
   * their parents resolved. Every stored chapter's parent, when it has one, is
   * a stored chapter; the other rows are as they were.
   */
  method PlaceChapters(db: Database, pid: nat, sent: seq<SentChapter>) returns (saved: seq<nat>)
    requires db.Valid()
    modifies db
    ensures db.Valid()
    ensures db.projects == old(db.projects) && db.lines == old(db.lines) && db.details == old(db.details)
    ensures db.nextLineId == old(db.nextLineId) && db.nextDetailId == old(db.nextDetailId)
    ensures |saved| == |sent|
    ensures db.chapters.Keys == old(db.chapters).Keys + SetOf(saved)
    ensures forall k :: k in db.chapters && k !in saved ==> db.chapters[k] == old(db.chapters)[k]
    ensures forall k :: k in saved ==>
      (k in db.chapters && db.chapters[k].projectId == pid && (db.chapters[k].parentId.Some? ==> db.chapters[k].parentId.value in saved))
    ensures DistinctSent(SentIds(sent, ChapterId), old(db.nextChapterId)) ==>
      Distinct(saved) && forall i :: 0 <= i < |saved| ==>
        db.chapters[saved[i]] == Placed(sent[i], saved[i], pid).(parentId := ParentOf(sent[i], TempIds(sent, saved)))
    ensures ChaptersLinked(db.projects, old(db.chapters)) && LinesLinked(old(db.chapters), db.lines) && pid in db.projects ==>
      ChaptersLinked(db.projects, db.chapters) && LinesLinked(db.chapters, db.lines)
  {
    ghost var chs0, next0 := db.chapters, db.nextChapterId;
    var temp;
    saved, temp := SaveChapters(db, pid, sent);
    ghost var chs1, next1 := db.chapters, db.nextChapterId;
    LinkParents(db, pid, sent, saved, temp);
    PlaceOutcome(chs0, next0, pid, sent, chs1, next1, saved, db.chapters);
    if DistinctSent(SentIds(sent, ChapterId), next0) {
      PlaceOutcomePlaced(chs0, next0, pid, sent, chs1, next1, saved, db.chapters);
    }
    if ChaptersLinked(db.projects, chs0) && LinesLinked(chs0, db.lines) && pid in db.projects {
      PlacingKeepsLinked(db.projects, chs0, db.chapters, db.lines, pid, saved);
    }
  }

  /**
   * What the last step leaves of the chapter table: the stored chapters, which
   * are then the project's only chapters, and every chapter of the project
   * before the sync that was not stored counted among the deleted ones.
   */
  lemma {:induction false} CascadeOutcome(chs0: map<nat, Chapter>, linked: map<nat, Chapter>, pid: int, saved: seq<nat>, gone: set<nat>)
    requires forall k :: k in chs0 ==> k in linked
    requires forall k :: k in linked && k !in saved ==> k in chs0 && linked[k] == chs0[k]
    requires forall k :: k in saved ==>
      (k in linked && linked[k].projectId == pid && (linked[k].parentId.Some? ==> linked[k].parentId.value in saved))
    requires gone == Descendants(linked, ProjectChapterIds(linked, pid) - SetOf(saved))
    ensures gone !! SetOf(saved) && ProjectChapterIds(chs0, pid) - SetOf(saved) <= gone
    ensures forall i :: 0 <= i < |saved| ==> saved[i] in RemoveKeys(linked, gone) && RemoveKeys(linked, gone)[saved[i]] == linked[saved[i]]
    ensures ProjectChapterIds(RemoveKeys(linked, gone), pid) == SetOf(saved)
    ensures ClosedBelow(linked, gone)
  {
    var roots := ProjectChapterIds(linked, pid) - SetOf(saved);
    DescendantsMeaning(linked, roots);
    DescendantsSpare(linked, roots, SetOf(saved));
    forall k | k in ProjectChapterIds(chs0, pid) - SetOf(saved)
      ensures k in gone
    {
      assert k in roots;
    }
  }

  /**
   * The first three loops of `syncProject` on a stored project: the project
   * takes the sent fields, the sent chapters are stored in it with their
   * parents resolved, and their lines and details are synchronised.
   */
  method PlaceAndSync(db: Database, id: nat, project: SentProject, sent: seq<SentChapter>)
    returns (saved: seq<nat>, ghost tss: seq<seq<nat>>, ghost dsss: seq<seq<seq<nat>>>)
    requires db.Valid() && id in db.projects
    modifies db
    ensures db.Valid()
    ensures db.projects == old(db.projects)[id := Project(id, project.name, project.userId, project.companyId)]
    ensures |saved| == |sent| && |tss| == |sent| && |dsss| == |sent|
    ensures db.chapters.Keys == old(db.chapters).Keys + SetOf(saved)
    ensures forall k :: k in db.chapters && k !in saved ==> db.chapters[k] == old(db.chapters)[k]
    ensures forall k :: k in saved ==>
      (k in db.chapters && db.chapters[k].projectId == id && (db.chapters[k].parentId.Some? ==> db.chapters[k].parentId.value in saved))
    ensures DistinctSent(SentIds(sent, ChapterId), old(db.nextChapterId)) ==>
      forall i :: 0 <= i < |saved| ==>
        db.chapters[saved[i]] == Placed(sent[i], saved[i], id).(parentId := ParentOf(sent[i], TempIds(sent, saved)))
    ensures ReadBack(sent, old(db.nextChapterId), old(db.nextLineId), old(db.nextDetailId)) ==>
      forall i :: 0 <= i < |saved| ==> ChapterExact(db.lines, db.details, saved[i], tss[i], dsss[i], sent[i].lines)
    ensures old(db.Linked()) ==> db.Linked()
  {
    ghost var wasLinked := db.Linked();
    db.SaveProject(Project(id, project.name, project.userId, project.companyId));
    assert wasLinked ==> ChaptersLinked(db.projects, db.chapters) && LinesLinked(db.chapters, db.lines);
    saved := PlaceChapters(db, id, sent);
    ghost var placed := db.chapters;
    tss, dsss := SyncChapters(db, saved, sent);
    assert db.chapters == placed;
  }

  /**
   * `syncProject`: no change when the project is not stored; otherwise the
   * project takes the sent fields, the sent chapters are stored in it with
   * their parents resolved, their lines and details synchronised, and every
   * other chapter of the project is deleted with all that hangs below it.
   * `linked` is the chapter table after the parents are resolved, `gone` the
   * chapters the last step deletes.
   */
  method SyncProject(db: Database, id: int, project: SentProject, sent: seq<SentChapter>)
    returns (found: bool, saved: seq<nat>, ghost linked: map<nat, Chapter>, ghost gone: set<nat>,
             ghost tss: seq<seq<nat>>, ghost dsss: seq<seq<seq<nat>>>)
    requires db.Valid()
    modifies db
    ensures db.Valid()
    ensures found <==> id in old(db.projects)
    ensures !found ==>
      (db.projects == old(db.projects) && db.chapters == old(db.chapters) && db.lines == old(db.lines) && db.details == old(db.details))
    ensures found ==> db.projects == old(db.projects)[id := Project(id, project.name, project.userId, project.companyId)]
    ensures found ==> |saved| == |sent| && |tss| == |sent| && |dsss| == |sent|
    // The chapter table: the stored chapters stay, in the project, and are its only chapters.
    ensures found ==> linked.Keys == old(db.chapters).Keys + SetOf(saved)
    ensures found ==> forall k :: k in linked && k !in saved ==> linked[k] == old(db.chapters)[k]
    ensures found ==> gone == Descendants(linked, ProjectChapterIds(linked, id) - SetOf(saved))
    ensures found ==> db.chapters == RemoveKeys(linked, gone)
    ensures found ==> gone !! SetOf(saved) && ProjectChapterIds(old(db.chapters), id) - SetOf(saved) <= gone
    ensures found ==> forall i :: 0 <= i < |saved| ==> saved[i] in db.chapters && db.chapters[saved[i]].projectId == id
    ensures found ==> ProjectChapterIds(db.chapters, id) == SetOf(saved)
    ensures found ==> forall l :: l in db.lines ==> db.lines[l].chapterId !in gone
    // With distinct ids read back, every sent chapter is stored as sent, and holds exactly its sent lines.
    ensures found && DistinctSent(SentIds(sent, ChapterId), old(db.nextChapterId)) ==>
      forall i :: 0 <= i < |saved| ==>
        db.chapters[saved[i]] == Placed(sent[i], saved[i], id).(parentId := ParentOf(sent[i], TempIds(sent, saved)))
    ensures found && ReadBack(sent, old(db.nextChapterId), old(db.nextLineId), old(db.nextDetailId)) ==>
      forall i :: 0 <= i < |saved| ==> ChapterExact(db.lines, db.details, saved[i], tss[i], dsss[i], sent[i].lines)
    // With the corrected line deletion and cascade, no reference is left dangling.
    ensures old(db.Linked()) ==> db.Linked()
  {
    if id !in db.projects {
      found, saved, linked, gone, tss, dsss := false, [], db.chapters, {}, [], [];
      return;
    }
    found := true;
    ghost var chs0 := db.chapters;
    saved, tss, dsss := PlaceAndSync(db, id, project, sent);
    linked := db.chapters;
    ghost var lines3, details3 := db.lines, db.details;
    ghost var linked3 := db.Linked();
    DeleteUnsentChapters(db, id, saved);
    assert SetOf(saved) == set k | k in saved;
    gone := Descendants(linked, ProjectChapterIds(linked, id) - SetOf(saved));
    CascadeOutcome(chs0, linked, id, saved, gone);
    if linked3 {
      CascadeKeepsLinked(db.projects, linked, lines3, details3, gone);
    }
    if ReadBack(sent, old(db.nextChapterId), old(db.nextLineId), old(db.nextDetailId)) {
      forall i | 0 <= i < |saved|
        ensures ChapterExact(db.lines, db.details, saved[i], tss[i], dsss[i], sent[i].lines)
      {
        ChapterExactAfterCascade(lines3, details3, saved[i], tss[i], dsss[i], sent[i].lines, gone);
      }
    }
  }
}
