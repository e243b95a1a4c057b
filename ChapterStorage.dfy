/**
 * The chapter notes of the text editor: a map from chapter key to text, kept in
 * the browser store under the key 'chapters'. The map the callbacks of a render
 * see (`chapters`) is the one stored when that render began; every write goes to
 * the stored map, which the next render shows.
 */
module ChapterStorage {
  import opened Cells

  class ChapterStore {
    /** The map of the current render. */
    var chapters: map<string, string>
    /** The state and the browser store after the last write. */
    var stored: map<string, string>
    /** The time of the last save or clear; `None` before any. */
    var lastSaved: Option<int>

    /**
     * Mounting: the stored map when the browser store holds one that parses,
     * the initial chapters otherwise (a missing, empty or unparsable item).
     */
    constructor(initialChapters: map<string, string>, item: Option<map<string, string>>)
      ensures chapters == stored && lastSaved == None
      ensures chapters == if item.Some? then item.value else initialChapters
    {
      chapters := if item.Some? then item.value else initialChapters;
      stored := chapters;
      lastSaved := None;
    }

    /** The next render sees what was last written. */
    method Render()
      modifies this
      ensures chapters == old(stored) && stored == old(stored) && lastSaved == old(lastSaved)
    {
      chapters := stored;
    }

    /** The effect on the props: when forced and the initial chapters are not empty, they replace the stored ones. */
    method ForceUpdateFromProps(initialChapters: map<string, string>, forceUpdateFromProps: bool)
      modifies this
      ensures stored == if forceUpdateFromProps && |initialChapters| > 0 then initialChapters else old(stored)
      ensures chapters == old(chapters) && lastSaved == old(lastSaved)
    {
      if forceUpdateFromProps && |initialChapters| > 0 {
        stored := initialChapters;
      }
    }

    /**
     * A render followed by its effects. `useLocalStorage` makes a new setter on
     * every render, and that setter is a dependency of the props effect, so the
     * effect runs after every render and not only when the props change: with
     * forced, non-empty initial chapters, every render is followed by their write.
     */
    method RenderWithEffects(initialChapters: map<string, string>, forceUpdateFromProps: bool)
      modifies this
      ensures chapters == old(stored) && lastSaved == old(lastSaved)
      ensures stored == if forceUpdateFromProps && |initialChapters| > 0 then initialChapters else old(stored)
    {
      Render();
      ForceUpdateFromProps(initialChapters, forceUpdateFromProps);
    }

    /**
     * `saveChapter`, corrected: the update starts from the latest stored map, so
     * every write of the same render is kept; the text goes under its key, every
     * other entry is kept, and the save time is recorded.
     */
    method SaveChapter(key: string, content: string, now: int)
      modifies this
      ensures stored == old(stored)[key := content]
      ensures chapters == old(chapters) && lastSaved == Some(now)
    {
      stored := stored[key := content];
      lastSaved := Some(now);
    }

    /** `saveChapter` as written: the update starts from the render's map, so an earlier write of the same render is lost. */
    method SaveChapterAsWritten(key: string, content: string, now: int)
      modifies this
      ensures stored == old(chapters)[key := content]
      ensures chapters == old(chapters) && lastSaved == Some(now)
    {
      stored := chapters[key := content];
      lastSaved := Some(now);
    }

    /** `loadChapter`: the text of the key in the render's map, '' when the key is absent. */
    function LoadChapter(key: string): (content: string)
      reads this
      ensures key in chapters ==> content == chapters[key]
      ensures key !in chapters ==> content == ""
    {
      if key in chapters then chapters[key] else ""
    }

    /** `getChapterKeys`: the keys of the render's map. */
    function ChapterKeys(): (keys: set<string>)
      reads this
      ensures forall k :: k in keys <==> k in chapters
    {
      chapters.Keys
    }

    /**
     * `deleteChapter`, corrected: the removal starts from the latest stored map;
     * the key leaves it and every other entry is kept.
     */
    method DeleteChapter(key: string)
      modifies this
      ensures stored == old(stored) - {key}
      ensures chapters == old(chapters) && lastSaved == old(lastSaved)
    {
      stored := stored - {key};
    }

    /** `deleteChapter` as written: the removal starts from the render's map, so an earlier write of the same render is lost. */
    method DeleteChapterAsWritten(key: string)
      modifies this
      ensures stored == old(chapters) - {key}
      ensures chapters == old(chapters) && lastSaved == old(lastSaved)
    {
      stored := chapters - {key};
    }

    /** `clearAllChapters`: the empty map; the time is recorded. */
    method ClearAllChapters(now: int)
      modifies this
      ensures stored == map[] && chapters == old(chapters) && lastSaved == Some(now)
    {
      stored := map[];
      lastSaved := Some(now);
    }
  }

  /** A saved text reads back on the next render, whatever the props effect writes after it; the other keys read as before. */
  method SaveThenLoad(store: ChapterStore, initialChapters: map<string, string>, forceUpdateFromProps: bool, key: string, content: string, now: int)
    requires store.chapters == store.stored
    modifies store
    ensures store.LoadChapter(key) == content
    ensures forall k :: k != key ==> store.LoadChapter(k) == old(store.LoadChapter(k))
  {
    store.SaveChapterAsWritten(key, content, now);
    store.RenderWithEffects(initialChapters, forceUpdateFromProps);
  }

  /** A deleted key reads as '' once rendered, and the other keys read as before. */
  method DeleteThenLoad(store: ChapterStore, initialChapters: map<string, string>, forceUpdateFromProps: bool, key: string)
    requires store.chapters == store.stored
    modifies store
    ensures store.LoadChapter(key) == "" && key !in store.ChapterKeys()
    ensures forall k :: k != key ==> store.LoadChapter(k) == old(store.LoadChapter(k))
  {
    store.DeleteChapterAsWritten(key);
    store.RenderWithEffects(initialChapters, forceUpdateFromProps);
  }

  /** After clearing, there are no keys and every key reads as ''. */
  method ClearThenKeys(store: ChapterStore, initialChapters: map<string, string>, forceUpdateFromProps: bool, now: int)
    modifies store
    ensures store.ChapterKeys() == {}
    ensures forall k :: store.LoadChapter(k) == ""
  {
    store.ClearAllChapters(now);
    store.RenderWithEffects(initialChapters, forceUpdateFromProps);
  }

  /** Two saves in one render: both texts are kept. */
  method TwoSaves(store: ChapterStore, initialChapters: map<string, string>, forceUpdateFromProps: bool, k1: string, c1: string, k2: string, c2: string, now: int)
    requires store.chapters == store.stored && k1 != k2
    modifies store
    ensures store.LoadChapter(k1) == c1 && store.LoadChapter(k2) == c2
  {
    store.SaveChapter(k1, c1, now);
    store.SaveChapter(k2, c2, now);
    store.RenderWithEffects(initialChapters, forceUpdateFromProps);
  }

  /** Two saves in one render, as written: the first text is lost when its key was new. */
  method TwoSavesAsWrittenLoseFirst(store: ChapterStore, initialChapters: map<string, string>, forceUpdateFromProps: bool, k1: string, c1: string, k2: string, c2: string, now: int)
    requires store.chapters == store.stored && k1 != k2 && k1 !in store.chapters && c1 != ""
    modifies store
    ensures store.LoadChapter(k1) == "" && store.LoadChapter(k2) == c2
  {
    store.SaveChapterAsWritten(k1, c1, now);
    store.SaveChapterAsWritten(k2, c2, now);
    store.RenderWithEffects(initialChapters, forceUpdateFromProps);
  }

  /** A save and then a delete of another key in one render: the saved text is kept. */
  method SaveThenDelete(store: ChapterStore, initialChapters: map<string, string>, forceUpdateFromProps: bool, k1: string, c1: string, k2: string, now: int)
    requires store.chapters == store.stored && k1 != k2
    modifies store
    ensures store.LoadChapter(k1) == c1 && store.LoadChapter(k2) == ""
  {
    store.SaveChapter(k1, c1, now);
    store.DeleteChapter(k2);
    store.RenderWithEffects(initialChapters, forceUpdateFromProps);
  }

  /** A save and then a delete of another key in one render, as written: the saved text is lost when its key was new. */
  method SaveThenDeleteAsWrittenLosesSave(store: ChapterStore, initialChapters: map<string, string>, forceUpdateFromProps: bool, k1: string, c1: string, k2: string, now: int)
    requires store.chapters == store.stored && k1 != k2 && k1 !in store.chapters && c1 != ""
    modifies store
    ensures store.LoadChapter(k1) == "" && store.LoadChapter(k2) == ""
  {
    store.SaveChapterAsWritten(k1, c1, now);
    store.DeleteChapterAsWritten(k2);
    store.RenderWithEffects(initialChapters, forceUpdateFromProps);
  }

  /**
   * With forced, non-empty initial chapters, a saved text reads back on the next
   * render, but the effect after that render writes the initial chapters back:
   * from the render after, a key they lack reads as '' again.
   */
  method ForcedPropsUndoSave(store: ChapterStore, initialChapters: map<string, string>, key: string, content: string, now: int)
    requires |initialChapters| > 0 && key !in initialChapters
    modifies store
    ensures store.chapters == initialChapters && store.LoadChapter(key) == ""
  {
    store.SaveChapterAsWritten(key, content, now);
    store.RenderWithEffects(initialChapters, true);
    assert store.LoadChapter(key) == content;
    store.RenderWithEffects(initialChapters, true);
  }
}
