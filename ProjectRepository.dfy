/**
 * The backend's stored rows: projects, chapters, main table lines and detail
 * lines, each table a map from id to row. A save with an id the table holds
 * overwrites that row; any other save inserts the row under a fresh id, above
 * every id the table ever allocated. A delete of an id the table does not hold
 * changes nothing. There are no foreign-key constraints: a line may name a
 * chapter that is gone. Ids are the database's identity values, which are
 * positive, hence `nat`.
 */
module ProjectRepository {
  import opened Cells
  import opened ProjectData

  /** Where a save lands: the id sent when the table holds it, the next fresh id otherwise. */
  function Target(keys: set<nat>, id: Option<int>, next: nat): nat
  {
    if id.Some? && id.value in keys then id.value else next
  }

  /** A table without the rows of some ids. */
  function RemoveKeys<V>(m: map<nat, V>, ks: set<nat>): (r: map<nat, V>)
    ensures forall k :: k in r <==> k in m && k !in ks
    ensures forall k :: k in r ==> r[k] == m[k]
  {
    map k | k in m && k !in ks :: m[k]
  }

  /** The lines of some chapters. */
  function LinesUnder(lines: map<nat, MainLine>, cs: set<nat>): (r: set<nat>)
    ensures forall l :: l in r <==> l in lines && lines[l].chapterId in cs
  {
    set l | l in lines && lines[l].chapterId in cs
  }

  /** The details of some lines. */
  function DetailsUnder(details: map<nat, DetailLine>, ls: set<nat>): (r: set<nat>)
    ensures forall d :: d in r <==> d in details && details[d].mainTableLineId in ls
  {
    set d | d in details && details[d].mainTableLineId in ls
  }

  /** The lines of one chapter (`findByChapterId`). */
  function LinesOfChapter(lines: map<nat, MainLine>, c: int): (r: set<nat>)
    ensures forall l :: l in r <==> l in lines && lines[l].chapterId == c
  {
    set l | l in lines && lines[l].chapterId == c
  }

  /** The details of one line (`findByMainTableLineId`). */
  function DetailsOfLine(details: map<nat, DetailLine>, l: int): (r: set<nat>)
    ensures forall d :: d in r <==> d in details && details[d].mainTableLineId == l
  {
    set d | d in details && details[d].mainTableLineId == l
  }

  /** The chapters whose parent is `p` (`findAll` filtered on the parent id: children of every project). */
  function ChildIds(chs: map<nat, Chapter>, p: nat): (r: set<nat>)
    ensures forall k :: k in r <==> k in chs && chs[k].parentId == Some(p)
  {
    set k | k in chs && chs[k].parentId == Some(p)
  }

  /** The chapters of a project (`findByProjectId`). */
  function ProjectChapterIds(chs: map<nat, Chapter>, pid: int): (r: set<nat>)
    ensures forall k :: k in r <==> k in chs && chs[k].projectId == pid
  {
    set k | k in chs && chs[k].projectId == pid
  }

  // ---------------------------------------------------------------------
  // Descendants: a set of chapters together with every chapter below it.
  // ---------------------------------------------------------------------

  /** No chapter has its parent in `s` without being in `s` itself. */
  ghost predicate ClosedBelow(chs: map<nat, Chapter>, s: set<nat>)
  {
    forall k :: k in chs && chs[k].parentId.Some? && chs[k].parentId.value in s ==> k in s
  }

  /** `s` and the chapters whose parent is in `s`. */
  function Grow(chs: map<nat, Chapter>, s: set<nat>): (t: set<nat>)
    ensures s <= t
    ensures forall k :: k in t <==> k in s || (k in chs && chs[k].parentId.Some? && chs[k].parentId.value in s)
  {
    s + set k | k in chs && chs[k].parentId.Some? && chs[k].parentId.value in s
  }

  lemma {:induction false} ProperSubsetSmaller(a: set<nat>, b: set<nat>)
    requires a < b
    ensures |a| < |b|
  {
    assert !(b <= a);
    var x :| x in b && x !in a;
    assert b == a + (b - a) && a * (b - a) == {};
    assert x in b - a;
  }

  /** `s` and everything below it: `Grow` repeated until nothing is added. */
  function Descendants(chs: map<nat, Chapter>, s: set<nat>): set<nat>
    decreases |chs.Keys - s|
  {
    var t := Grow(chs, s);
    if t <= s then s
    else
      assert !(t <= s);
      var x :| x in t && x !in s;
      assert chs.Keys - t < chs.Keys - s by {
        assert x in chs.Keys - s && x !in chs.Keys - t;
      }
      ProperSubsetSmaller(chs.Keys - t, chs.Keys - s);
      Descendants(chs, t)
  }

  /** The descendants hold the starting set, lie within it and the table, and are closed below. */
  lemma {:induction false} DescendantsMeaning(chs: map<nat, Chapter>, s: set<nat>)
    ensures s <= Descendants(chs, s) <= s + chs.Keys
    ensures ClosedBelow(chs, Descendants(chs, s))
    decreases |chs.Keys - s|
  {
    var t := Grow(chs, s);
    if !(t <= s) {
      assert !(t <= s);
      var x :| x in t && x !in s;
      assert chs.Keys - t < chs.Keys - s by {
        assert x in chs.Keys - s && x !in chs.Keys - t;
      }
      ProperSubsetSmaller(chs.Keys - t, chs.Keys - s);
      DescendantsMeaning(chs, t);
    }
  }

  /** They are the least such set: any set closed below that holds `s` holds them. */
  lemma {:induction false} DescendantsLeast(chs: map<nat, Chapter>, s: set<nat>, bound: set<nat>)
    requires s <= bound && ClosedBelow(chs, bound)
    ensures Descendants(chs, s) <= bound
    decreases |chs.Keys - s|
  {
    var t := Grow(chs, s);
    if !(t <= s) {
      assert !(t <= s);
      var x :| x in t && x !in s;
      assert chs.Keys - t < chs.Keys - s by {
        assert x in chs.Keys - s && x !in chs.Keys - t;
      }
      ProperSubsetSmaller(chs.Keys - t, chs.Keys - s);
      DescendantsLeast(chs, t, bound);
    }
  }

  /**
   * A set whose chapters all have no parent or a parent inside it is never
   * reached from chapters outside it: the cascade from outside spares it.
   */
  lemma {:induction false} DescendantsSpare(chs: map<nat, Chapter>, s: set<nat>, kept: set<nat>)
    requires s !! kept
    requires forall k :: k in kept && k in chs && chs[k].parentId.Some? ==> chs[k].parentId.value in kept
    ensures Descendants(chs, s) !! kept
  {
    var outside := (s + chs.Keys) - kept;
    DescendantsLeast(chs, s, outside);
  }

  /** Removing the descendants of `a`, then those of `x` in what is left, removes the descendants of both. */
  lemma {:induction false} DescendantsInSteps(chs: map<nat, Chapter>, a: set<nat>, x: nat)
    ensures var d1 := Descendants(chs, a);
      d1 + Descendants(RemoveKeys(chs, d1), {x}) == Descendants(chs, a + {x})
  {
    var d1 := Descendants(chs, a);
    var rest := RemoveKeys(chs, d1);
    var d2 := Descendants(rest, {x});
    var both := Descendants(chs, a + {x});
    DescendantsMeaning(chs, a);
    DescendantsMeaning(rest, {x});
    DescendantsMeaning(chs, a + {x});
    DescendantsLeast(chs, a, both);
    assert ClosedBelow(rest, both);
    DescendantsLeast(rest, {x}, both);
    assert ClosedBelow(chs, d1 + d2) by {
      forall k | k in chs && chs[k].parentId.Some? && chs[k].parentId.value in d1 + d2
        ensures k in d1 + d2
      {
        if k !in d1 && chs[k].parentId.value !in d1 {
          assert k in rest;
        }
      }
    }
    DescendantsLeast(chs, a + {x}, d1 + d2);
  }

  // ---------------------------------------------------------------------
  // References between rows.
  // ---------------------------------------------------------------------

  /** Every chapter belongs to a stored project, and its parent, when it has one, is a stored chapter. */
  ghost predicate ChaptersLinked(projects: map<nat, Project>, chs: map<nat, Chapter>)
  {
    forall k :: k in chs ==> chs[k].projectId in projects && (chs[k].parentId.Some? ==> chs[k].parentId.value in chs)
  }

  /** Every line belongs to a stored chapter. */
  ghost predicate LinesLinked(chs: map<nat, Chapter>, lines: map<nat, MainLine>)
  {
    forall l :: l in lines ==> lines[l].chapterId in chs
  }

  /** Every detail belongs to a stored line. */
  ghost predicate DetailsLinked(lines: map<nat, MainLine>, details: map<nat, DetailLine>)
  {
    forall d :: d in details ==> details[d].mainTableLineId in lines
  }

  /**
   * Removing a set of chapters closed under "child of", with their lines and
   * those lines' details, leaves no reference to a removed row.
   */
  lemma {:induction false} CascadeKeepsLinked(projects: map<nat, Project>, chs: map<nat, Chapter>, lines: map<nat, MainLine>,
                                              details: map<nat, DetailLine>, gone: set<nat>)
    requires ClosedBelow(chs, gone)
    requires ChaptersLinked(projects, chs) && LinesLinked(chs, lines) && DetailsLinked(lines, details)
    ensures var chs', lg := RemoveKeys(chs, gone), LinesUnder(lines, gone);
      ChaptersLinked(projects, chs') && LinesLinked(chs', RemoveKeys(lines, lg)) &&
      DetailsLinked(RemoveKeys(lines, lg), RemoveKeys(details, DetailsUnder(details, lg)))
  {
    var chs', lg := RemoveKeys(chs, gone), LinesUnder(lines, gone);
    forall k | k in chs' && chs'[k].parentId.Some?
      ensures chs'[k].parentId.value in chs'
    {
      assert chs'[k] == chs[k];
    }
  }

  // ---------------------------------------------------------------------
  // The tables.
  // ---------------------------------------------------------------------

  /** The four repositories and the identity counters of the three tables the sync inserts into. */
  class Database {
    var projects: map<nat, Project>
    var chapters: map<nat, Chapter>
    var lines: map<nat, MainLine>
    var details: map<nat, DetailLine>
    var nextChapterId: nat
    var nextLineId: nat
    var nextDetailId: nat

    /** Every row is stored under its own id, and every id is below its table's counter. */
    ghost predicate Valid()
      reads this
    {
      (forall k :: k in projects ==> projects[k].id == k) &&
      (forall k :: k in chapters ==> chapters[k].id == k && k < nextChapterId) &&
      (forall k :: k in lines ==> lines[k].id == k && k < nextLineId) &&
      (forall k :: k in details ==> details[k].id == k && k < nextDetailId)
    }

    /** No row refers to a row that is not stored. */
    ghost predicate Linked()
      reads this
    {
      ChaptersLinked(projects, chapters) && LinesLinked(chapters, lines) && DetailsLinked(lines, details)
    }

    constructor(projects: map<nat, Project>, chapters: map<nat, Chapter>, lines: map<nat, MainLine>, details: map<nat, DetailLine>,
                nextChapterId: nat, nextLineId: nat, nextDetailId: nat)
      ensures this.projects == projects && this.chapters == chapters && this.lines == lines && this.details == details
      ensures this.nextChapterId == nextChapterId && this.nextLineId == nextLineId && this.nextDetailId == nextDetailId
    {
      this.projects, this.chapters, this.lines, this.details := projects, chapters, lines, details;
      this.nextChapterId, this.nextLineId, this.nextDetailId := nextChapterId, nextLineId, nextDetailId;
    }

    /** `projectRepository.save` of a project that exists. */
    method SaveProject(p: Project)
      requires Valid() && p.id in projects
      modifies this
      ensures Valid()
      ensures projects == old(projects)[p.id := p]
      ensures chapters == old(chapters) && lines == old(lines) && details == old(details)
      ensures nextChapterId == old(nextChapterId) && nextLineId == old(nextLineId) && nextDetailId == old(nextDetailId)
    {
      projects := projects[p.id := p];
    }

    /** `chapterRepository.save`: the row is stored under its target id, which it carries. */
    method SaveChapter(c: Chapter, id: Option<int>) returns (saved: nat)
      requires Valid()
      modifies this
      ensures Valid()
      ensures saved == Target(old(chapters).Keys, id, old(nextChapterId))
      ensures chapters == old(chapters)[saved := c.(id := saved)]
      ensures nextChapterId == if saved == old(nextChapterId) then old(nextChapterId) + 1 else old(nextChapterId)
      ensures projects == old(projects) && lines == old(lines) && details == old(details)
      ensures nextLineId == old(nextLineId) && nextDetailId == old(nextDetailId)
    {
      saved := Target(chapters.Keys, id, nextChapterId);
      if saved == nextChapterId {
        nextChapterId := nextChapterId + 1;
      }
      chapters := chapters[saved := c.(id := saved)];
    }

    /** `mainTableLineRepository.save`. */
    method SaveLine(l: MainLine, id: Option<int>) returns (saved: nat)
      requires Valid()
      modifies this
      ensures Valid()
      ensures saved == Target(old(lines).Keys, id, old(nextLineId))
      ensures lines == old(lines)[saved := l.(id := saved)]
      ensures nextLineId == if saved == old(nextLineId) then old(nextLineId) + 1 else old(nextLineId)
      ensures projects == old(projects) && chapters == old(chapters) && details == old(details)
      ensures nextChapterId == old(nextChapterId) && nextDetailId == old(nextDetailId)
    {
      saved := Target(lines.Keys, id, nextLineId);
      if saved == nextLineId {
        nextLineId := nextLineId + 1;
      }
      lines := lines[saved := l.(id := saved)];
    }

    /** `detailTableLineRepository.save`. */
    method SaveDetail(d: DetailLine, id: Option<int>) returns (saved: nat)
      requires Valid()
      modifies this
      ensures Valid()
      ensures saved == Target(old(details).Keys, id, old(nextDetailId))
      ensures details == old(details)[saved := d.(id := saved)]
      ensures nextDetailId == if saved == old(nextDetailId) then old(nextDetailId) + 1 else old(nextDetailId)
      ensures projects == old(projects) && chapters == old(chapters) && lines == old(lines)
      ensures nextChapterId == old(nextChapterId) && nextLineId == old(nextLineId)
    {
      saved := Target(details.Keys, id, nextDetailId);
      if saved == nextDetailId {
        nextDetailId := nextDetailId + 1;
      }
      details := details[saved := d.(id := saved)];
    }
  }

  /** The ids of a set, one after the other in some order (the order of a query without `ORDER BY`). */
  method Enumerate(s: set<nat>) returns (r: seq<nat>)
    ensures |r| == |s|
    ensures forall x :: x in r <==> x in s
    ensures forall i, j :: 0 <= i < j < |r| ==> r[i] != r[j]
  {
    r := [];
    var rest := s;
    while rest != {}
      invariant rest <= s
      invariant forall x :: x in r <==> x in s - rest
      invariant forall i, j :: 0 <= i < j < |r| ==> r[i] != r[j]
      invariant |r| + |rest| == |s|
      decreases |rest|
    {
      var x :| x in rest;
      assert x !in r;
      r := r + [x];
      rest := rest - {x};
    }
  }

  /** The loop `for (existing : found) if (!sent.contains(existing.getId())) delete(existing)`, on one table. */
  method DeleteUnsent<V>(m: map<nat, V>, found: seq<nat>, sent: set<nat>) returns (r: map<nat, V>)
    ensures r == RemoveKeys(m, set i | i in found && i !in sent)
  {
    r := m;
    for k := 0 to |found|
      invariant r == RemoveKeys(m, set i | i in found[..k] && i !in sent)
    {
      if found[k] !in sent {
        r := r - {found[k]};
      }
      assert found[..k + 1] == found[..k] + [found[k]];
    }
    assert found[..|found|] == found;
  }
}
