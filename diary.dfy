/**
 * The diary page: local storage, the entries on the page, and the saveEntry
 * listeners that the page registers for its textareas.
 *
 * Every saveEntry listener is registered on the global object rather than on its
 * textarea, so every `change` event that reaches the window runs the save of every
 * text entry ever created, deleted ones included. The model keeps that: `areas`
 * lists every textarea ever created with the key its listener writes to, and it
 * only ever grows.
 */
module Diary {
  import opened Wrappers
  import opened Codec
  import opened Keys
  import opened Load

  /** The element inside an entry's section: the entry's textarea (an index into the textareas) or an image. */
  datatype View = TextView(area: nat) | ImageView(src: string)

  /** A section of the page: the storage key it was made for and its element. */
  datatype Entry = Entry(key: string, view: View)

  /** A textarea with its current value, and the key its saveEntry listener writes to. */
  datatype TextArea = TextArea(key: string, value: string)

  /** Every text entry on the page has a textarea of its own, made for its own key. */
  predicate Linked(page: seq<Entry>, areas: seq<TextArea>)
  {
    && (forall i :: 0 <= i < |page| && page[i].view.TextView? ==>
          page[i].view.area < |areas| && areas[page[i].view.area].key == page[i].key)
    && (forall i, j :: 0 <= i < j < |page| && page[i].view.TextView? && page[j].view.TextView? ==>
          page[i].view.area != page[j].view.area)
  }

  /** No text entry on the page uses the a-th textarea. */
  predicate AreaUnused(page: seq<Entry>, a: nat)
  {
    forall i :: 0 <= i < |page| && page[i].view.TextView? ==> page[i].view.area != a
  }

  /** What one entry shows. */
  function Show(e: Entry, areas: seq<TextArea>): Rendered
    requires e.view.TextView? ==> e.view.area < |areas|
  {
    match e.view
    case TextView(a) => TextShown(e.key, areas[a].value)
    case ImageView(src) => ImageShown(e.key, src)
  }

  /** What the page shows, entry by entry, in page order. */
  function Shown(page: seq<Entry>, areas: seq<TextArea>): (r: seq<Rendered>)
    requires Linked(page, areas)
    ensures |r| == |page| && forall i :: 0 <= i < |page| ==> r[i] == Show(page[i], areas)
  {
    seq(|page|, i requires 0 <= i < |page| => Show(page[i], areas))
  }

  /** The textareas the load pass creates for what it renders: one per text entry, in order. */
  function TextAreasOf(shown: seq<Rendered>): seq<TextArea>
  {
    if shown == [] then []
    else
      var e := shown[|shown| - 1];
      TextAreasOf(shown[..|shown| - 1]) + (if e.TextShown? then [TextArea(e.key, e.text)] else [])
  }

  /**
   * One `change` event: every registered saveEntry runs, in registration order, and
   * writes its textarea's current value as a text item under its key. accepted[i]
   * says whether storage took the i-th write; a refused write (setItem throwing, say
   * for a full quota) changes nothing, and the browser still runs the later listeners.
   */
  function SaveAll(store: map<string, string>, areas: seq<TextArea>, accepted: seq<bool>): (r: map<string, string>)
    requires |accepted| == |areas|
    ensures store.Keys <= r.Keys
  {
    if areas == [] then store
    else
      var n := |areas| - 1;
      var prior := SaveAll(store, areas[..n], accepted[..n]);
      if accepted[n] then prior[areas[n].key := MakeDiaryItem("text", areas[n].value)] else prior
  }

  // ---------------------------------------------------------------------------
  // Properties of the listeners and the page

  /** The keys of the listeners whose write storage took. */
  function SavedKeys(areas: seq<TextArea>, accepted: seq<bool>): set<string>
    requires |accepted| == |areas|
  {
    set i | 0 <= i < |areas| && accepted[i] :: areas[i].key
  }

  /** A change event adds to the store exactly the keys of the listeners whose write storage took. */
  lemma {:induction false} SaveAllKeys(store: map<string, string>, areas: seq<TextArea>, accepted: seq<bool>)
    requires |accepted| == |areas|
    ensures SaveAll(store, areas, accepted).Keys == store.Keys + SavedKeys(areas, accepted)
    decreases |areas|
  {
    if areas != [] {
      var n := |areas| - 1;
      SaveAllKeys(store, areas[..n], accepted[..n]);
      assert SavedKeys(areas, accepted) == SavedKeys(areas[..n], accepted[..n]) + (if accepted[n] then {areas[n].key} else {});
    }
  }

  /** A change event leaves the value of every key outside the written ones as it was. */
  lemma {:induction false} SaveAllKeepsOtherKeys(store: map<string, string>, areas: seq<TextArea>, accepted: seq<bool>, k: string)
    requires |accepted| == |areas|
    requires k in store && k !in SavedKeys(areas, accepted)
    ensures k in SaveAll(store, areas, accepted) && SaveAll(store, areas, accepted)[k] == store[k]
    decreases |areas|
  {
    if areas != [] {
      var n := |areas| - 1;
      assert SavedKeys(areas[..n], accepted[..n]) <= SavedKeys(areas, accepted);
      SaveAllKeepsOtherKeys(store, areas[..n], accepted[..n], k);
      assert accepted[n] ==> areas[n].key in SavedKeys(areas, accepted);
    }
  }

  /** After a change event a listener's key holds the text item of the last textarea registered for that key. */
  lemma {:induction false} SaveAllLastWrite(store: map<string, string>, areas: seq<TextArea>, accepted: seq<bool>, i: nat)
    requires |accepted| == |areas| && i < |areas| && accepted[i]
    requires forall j :: i < j < |areas| && accepted[j] ==> areas[j].key != areas[i].key
    ensures areas[i].key in SaveAll(store, areas, accepted)
    ensures SaveAll(store, areas, accepted)[areas[i].key] == MakeDiaryItem("text", areas[i].value)
    decreases |areas|
  {
    var n := |areas| - 1;
    if i < n {
      SaveAllLastWrite(store, areas[..n], accepted[..n], i);
    }
  }

  /**
   * After a change event a listener's key holds the text item of the last textarea
   * registered for that key, and it decodes to that textarea's value.
   */
  lemma SaveAllLastWins(store: map<string, string>, areas: seq<TextArea>, accepted: seq<bool>, i: nat)
    requires |accepted| == |areas| && i < |areas| && accepted[i]
    requires forall j :: i < j < |areas| && accepted[j] ==> areas[j].key != areas[i].key
    ensures areas[i].key in SaveAll(store, areas, accepted)
    ensures ParseItem(SaveAll(store, areas, accepted)[areas[i].key]) == Some(Item("text", areas[i].value))
  {
    SaveAllLastWrite(store, areas, accepted, i);
    ParseMakeDiaryItem("text", areas[i].value);
  }

  /**
   * The listener of a deleted text entry stays registered: the next change event
   * writes the deleted key back into the store.
   */
  lemma DeletedTextEntryIsSavedAgain(store: map<string, string>, areas: seq<TextArea>, accepted: seq<bool>, i: nat)
    requires |accepted| == |areas| && i < |areas| && accepted[i]
    ensures areas[i].key in SaveAll(store - {areas[i].key}, areas, accepted)
  {
    SaveAllKeys(store - {areas[i].key}, areas, accepted);
    assert areas[i].key in SavedKeys(areas, accepted);
  }

  lemma {:induction false} TextAreasOfAppend(s: seq<Rendered>, t: seq<Rendered>)
    ensures TextAreasOf(s + t) == TextAreasOf(s) + TextAreasOf(t)
    decreases |t|
  {
    if t == [] {
      assert s + t == s;
    } else {
      var init := t[..|t| - 1];
      assert (s + t)[..|s + t| - 1] == s + init;
      TextAreasOfAppend(s, init);
    }
  }

  lemma ExtendAreas(now: seq<TextArea>, before: seq<TextArea>, start: seq<TextArea>, s: seq<Rendered>, d: seq<Rendered>)
    requires now == before + TextAreasOf(d) && before == start + TextAreasOf(s)
    ensures now == start + TextAreasOf(s + d)
  {
    TextAreasOfAppend(s, d);
  }

  lemma ExtendRendering(now: seq<Rendered>, before: seq<Rendered>, start: seq<Rendered>, s: seq<Rendered>, d: seq<Rendered>)
    requires now == before + d && before == start + s
    ensures now == start + (s + d)
  {
  }

  /** Appending textareas does not change what the existing entries show. */
  lemma ShownKeepsWithMoreAreas(page: seq<Entry>, areas: seq<TextArea>, more: seq<TextArea>)
    requires Linked(page, areas)
    ensures Linked(page, areas + more)
    ensures Shown(page, areas + more) == Shown(page, areas)
  {
  }

  // ---------------------------------------------------------------------------
  // The page

  /**
   * The first loop of showEntries: walk the storage keys in the order the browser
   * enumerates them and keep those whose first five characters are "diary".
   */
  method CollectDiaryKeys(enumeration: seq<string>) returns (diaryKeys: seq<string>)
    ensures diaryKeys == DiaryKeysOf(enumeration)
  {
    diaryKeys := [];
    var index := 0;
    while index < |enumeration|
      invariant 0 <= index <= |enumeration|
      invariant diaryKeys == DiaryKeysOf(enumeration[..index])
    {
      var key := enumeration[index];
      assert enumeration[..index + 1] == enumeration[..index] + [key];
      if SliceFromStart(key, 5) == Prefix {
        diaryKeys := diaryKeys + [key];
      }
      index := index + 1;
    }
    assert enumeration[..index] == enumeration;
  }

  /** How initialize ended: local storage missing, or started with the load pass run (to its end or not). */
  datatype Startup = Unsupported | Started(completed: bool)

  class Diary {
    /** window.localStorage */
    var store: map<string, string>
    /** The entry sections of <main>, in order; the button sections always follow them. */
    var page: seq<Entry>
    /** Every textarea created so far, each with its saveEntry registered on the window. */
    var areas: seq<TextArea>
    /** initialize has connected the Add entry and Add photo buttons and the file input. */
    var wired: bool
    /** initialize found no local storage and replaced <main> with an error heading. */
    var unsupported: bool

    ghost predicate Valid()
      reads this
    {
      Linked(page, areas)
    }

    /** What the page shows, entry by entry. */
    ghost function Rendering(): seq<Rendered>
      reads this
      requires Valid()
    {
      Shown(page, areas)
    }

    /** A page load over the storage that persists between visits. */
    constructor (persisted: map<string, string>)
      ensures Valid()
      ensures store == persisted && page == [] && areas == [] && !wired && !unsupported
    {
      store := persisted;
      page := [];
      areas := [];
      wired := false;
      unsupported := false;
    }

    /** addSection: the new section goes after the existing entries, before the buttons. */
    method AddSection(key: string, view: View)
      requires Valid()
      requires view.TextView? ==> view.area < |areas| && areas[view.area].key == key && AreaUnused(page, view.area)
      modifies this`page
      ensures Valid()
      ensures page == old(page) + [Entry(key, view)]
      ensures Rendering() == old(Rendering()) + [Show(Entry(key, view), areas)]
    {
      page := page + [Entry(key, view)];
    }

    /**
     * deleteEntry, the delete button of the i-th entry: the section leaves the page
     * and its key leaves the store. A removed section has no button left to press.
     */
    method DeleteEntry(i: nat)
      requires Valid() && i < |page|
      modifies this`page, this`store
      ensures Valid()
      ensures page == old(page[..i] + page[i + 1..])
      ensures store == old(store) - {old(page[i].key)}
      ensures Rendering() == old(Rendering()[..i] + Rendering()[i + 1..])
    {
      var key := page[i].key;
      page := page[..i] + page[i + 1..];
      store := store - {key};
    }

    /**
     * addTextEntry: a textarea holding the initial text, in a new section, with its
     * saveEntry registered. Nothing is written to the store.
     */
    method AddTextEntry(key: string, initialText: string)
      requires Valid()
      modifies this`page, this`areas
      ensures Valid()
      ensures areas == old(areas) + [TextArea(key, initialText)]
      ensures page == old(page) + [Entry(key, TextView(|old(areas)|))]
      ensures Rendering() == old(Rendering()) + [TextShown(key, initialText)]
    {
      ShownKeepsWithMoreAreas(page, areas, [TextArea(key, initialText)]);
      areas := areas + [TextArea(key, initialText)];
      AddSection(key, TextView(|areas| - 1));
    }

    /** addImageEntry: an image with the data URL as its source, in a new section. */
    method AddImageEntry(key: string, dataUrl: string)
      requires Valid()
      modifies this`page
      ensures Valid()
      ensures page == old(page) + [Entry(key, ImageView(dataUrl))]
      ensures Rendering() == old(Rendering()) + [ImageShown(key, dataUrl)]
    {
      AddSection(key, ImageView(dataUrl));
    }

    /**
     * addEntryClick at time `now`: an empty text entry under "diary" + now. The store
     * is not written until a change event runs the entry's saveEntry.
     */
    method AddEntryClick(now: nat)
      requires Valid() && wired
      modifies this`page, this`areas
      ensures Valid()
      ensures areas == old(areas) + [TextArea(DiaryKey(now), "")]
      ensures page == old(page) + [Entry(DiaryKey(now), TextView(|old(areas)|))]
      ensures Rendering() == old(Rendering()) + [TextShown(DiaryKey(now), "")]
    {
      AddTextEntry(DiaryKey(now), "");
    }

    /** The user types into the textarea of the i-th entry. */
    method EditText(i: nat, value: string)
      requires Valid() && i < |page| && page[i].view.TextView?
      modifies this`areas
      ensures Valid()
      ensures areas == old(areas[page[i].view.area := TextArea(page[i].key, value)])
      ensures Rendering() == old(Rendering()[i := TextShown(page[i].key, value)])
    {
      var a := page[i].view.area;
      areas := areas[a := TextArea(page[i].key, value)];
    }

    /**
     * saveEntry of the a-th textarea: the text item holding its current value is
     * written under its key, overwriting what was there; no other key changes.
     * `accepted` is whether storage takes the write; when setItem throws, storage
     * is left as it was.
     */
    method SaveEntry(a: nat, accepted: bool)
      requires a < |areas|
      modifies this`store
      ensures accepted ==> store == old(store)[areas[a].key := MakeDiaryItem("text", areas[a].value)]
      ensures accepted ==> ParseItem(store[areas[a].key]) == Some(Item("text", areas[a].value))
      ensures !accepted ==> store == old(store)
    {
      var textItem := MakeDiaryItem("text", areas[a].value);
      if accepted {
        ParseMakeDiaryItem("text", areas[a].value);
        store := store[areas[a].key := textItem];
      }
    }

    /**
     * A `change` event reaching the window: the browser runs every registered
     * saveEntry in the order they were registered.
     */
    method ChangeEvent(accepted: seq<bool>)
      requires |accepted| == |areas|
      modifies this`store
      ensures store == SaveAll(old(store), areas, accepted)
    {
      var i := 0;
      while i < |areas|
        invariant 0 <= i <= |areas|
        invariant store == SaveAll(old(store), areas[..i], accepted[..i])
      {
        assert areas[..i + 1][..i] == areas[..i] && accepted[..i + 1][..i] == accepted[..i];
        SaveEntry(i, accepted[i]);
        i := i + 1;
      }
      assert areas[..i] == areas && accepted[..i] == accepted;
    }

    /**
     * addImage, once the selected file has been read as the data URL: an image
     * entry under "diary" + now, then the image item written under that key. Every
     * other key keeps its value. `accepted` is whether storage takes the write: a
     * large data URL can exceed the quota, setItem then throws, and the image stays
     * on the page without being stored.
     */
    method AddImage(now: nat, dataUrl: string, accepted: bool)
      requires Valid() && wired
      modifies this`page, this`store
      ensures Valid()
      ensures page == old(page) + [Entry(DiaryKey(now), ImageView(dataUrl))]
      ensures Rendering() == old(Rendering()) + [ImageShown(DiaryKey(now), dataUrl)]
      ensures accepted ==> store == old(store)[DiaryKey(now) := MakeDiaryItem("image", dataUrl)]
      ensures accepted ==> ParseItem(store[DiaryKey(now)]) == Some(Item("image", dataUrl))
      ensures !accepted ==> store == old(store)
    {
      var itemKey := DiaryKey(now);
      AddImageEntry(itemKey, dataUrl);
      var imageItem := MakeDiaryItem("image", dataUrl);
      if accepted {
        ParseMakeDiaryItem("image", dataUrl);
        store := store[itemKey := imageItem];
      }
    }

    /** The dispatch of showEntries on a decoded item's type: a text entry, an image entry, or nothing. */
    method RenderItem(key: string, item: Item)
      requires Valid()
      modifies this`page, this`areas
      ensures Valid()
      ensures Rendering() == old(Rendering()) + Dispatch(key, item)
      ensures areas == old(areas) + TextAreasOf(Dispatch(key, item))
    {
      if item.kind == "text" {
        AddTextEntry(key, item.data);
      } else if item.kind == "image" {
        AddImageEntry(key, item.data);
      } else {
        assert Dispatch(key, item) == [];
      }
    }

    /**
     * The second loop of showEntries: each key's record is parsed and dispatched on
     * its type, in the order given. A record that does not parse throws, which ends
     * the pass with what was rendered so far left on the page.
     */
    method RenderKeys(diaryKeys: seq<string>) returns (completed: bool)
      requires Valid() && forall k :: k in diaryKeys ==> k in store
      modifies this`page, this`areas
      ensures Valid()
      ensures completed == LoadKeys(store, diaryKeys).completed
      ensures Rendering() == old(Rendering()) + LoadKeys(store, diaryKeys).shown
      ensures areas == old(areas) + TextAreasOf(LoadKeys(store, diaryKeys).shown)
    {
      var index := 0;
      ghost var shown: seq<Rendered> := [];
      while index < |diaryKeys|
        invariant 0 <= index <= |diaryKeys|
        invariant Valid()
        invariant LoadKeys(store, diaryKeys[..index]) == Loaded(shown, true)
        invariant Rendering() == old(Rendering()) + shown
        invariant areas == old(areas) + TextAreasOf(shown)
      {
        var key := diaryKeys[index];
        LoadNextKey(store, diaryKeys, index);
        var item := ParseItem(store[key]);
        if item.None? {
          return false;
        }
        ghost var areasBefore, renderingBefore := areas, Rendering();
        RenderItem(key, item.value);
        ExtendAreas(areas, areasBefore, old(areas), shown, Dispatch(key, item.value));
        ExtendRendering(Rendering(), renderingBefore, old(Rendering()), shown, Dispatch(key, item.value));
        shown := shown + Dispatch(key, item.value);
        index := index + 1;
      }
      assert diaryKeys[..index] == diaryKeys;
      completed := true;
    }

    /**
     * showEntries, given the order in which the browser enumerates the storage keys:
     * the keys with the "diary" prefix are collected, sorted and rendered one by one.
     */
    method ShowEntries(enumeration: seq<string>) returns (completed: bool)
      requires Valid() && Enumerates(store, enumeration)
      modifies this`page, this`areas
      ensures Valid()
      ensures completed == LoadPass(store, enumeration).completed
      ensures Rendering() == old(Rendering()) + LoadPass(store, enumeration).shown
      ensures areas == old(areas) + TextAreasOf(LoadPass(store, enumeration).shown)
    {
      var diaryKeys := CollectDiaryKeys(enumeration);
      diaryKeys := Sort(diaryKeys);
      assert diaryKeys == SortedDiaryKeys(store, enumeration);
      completed := RenderKeys(diaryKeys);
    }

    /**
     * initialize on page load. Without local storage <main> is replaced by the error
     * heading and nothing else happens; otherwise the buttons and the file input are
     * connected and showEntries runs.
     */
    method Initialize(available: bool, enumeration: seq<string>) returns (startup: Startup)
      requires Valid() && page == [] && areas == [] && !wired && !unsupported
      requires available ==> Enumerates(store, enumeration)
      modifies this`page, this`areas, this`wired, this`unsupported
      ensures Valid()
      ensures !available ==> startup == Unsupported && unsupported && !wired && page == [] && areas == []
      ensures available ==> startup == Started(LoadPass(store, enumeration).completed)
      ensures available ==> wired && !unsupported && Rendering() == LoadPass(store, enumeration).shown
      ensures available ==> areas == TextAreasOf(LoadPass(store, enumeration).shown)
    {
      if !available {
        unsupported := true;
        return Unsupported;
      }
      wired := true;
      assert Rendering() == [] && areas == [];
      ghost var pass := LoadPass(store, enumeration);
      var completed := ShowEntries(enumeration);
      assert completed == pass.completed && Rendering() == [] + pass.shown && areas == [] + TextAreasOf(pass.shown);
      startup := Started(completed);
    }
  }

  // ---------------------------------------------------------------------------
  // Scenarios

  /** A store with a single diary key visits just that key. */
  lemma SingleDiaryKey(store: map<string, string>, key: string)
    requires store.Keys == {key} && IsDiaryKey(key)
    ensures Enumerates(store, [key])
    ensures SortedDiaryKeys(store, [key]) == [key]
  {
    assert DiaryKeysOf([key]) == [key];
  }

  /** A store holding one saved text entry loads as exactly that entry. */
  lemma LoadSavedTextEntry(key: string, text: string)
    requires IsDiaryKey(key)
    ensures Enumerates(map[key := MakeDiaryItem("text", text)], [key])
    ensures LoadPass(map[key := MakeDiaryItem("text", text)], [key]) == Loaded([TextShown(key, text)], true)
  {
    var store := map[key := MakeDiaryItem("text", text)];
    SingleDiaryKey(store, key);
    ParseMakeDiaryItem("text", text);
    assert [key][..0] == [];
    assert LoadKeys(store, [key]) == Loaded(Dispatch(key, Item("text", text)), true);
  }

  /** The load pass over empty storage renders nothing and completes. */
  lemma EmptyStoreLoadsNothing()
    ensures Enumerates(map[], [])
    ensures LoadPass(map[], []) == Loaded([], true)
    ensures TextAreasOf([]) == []
  {
    assert SortedDiaryKeys(map[], []) == [];
  }

  /** A first visit with empty storage: one entry added with Add entry, the text typed in, and a change event. */
  method WriteOneEntry(now: nat, text: string) returns (d: Diary)
    ensures fresh(d) && d.Valid() && d.wired
    ensures d.page == [Entry(DiaryKey(now), TextView(0))]
    ensures d.areas == [TextArea(DiaryKey(now), text)]
    ensures d.store == map[DiaryKey(now) := MakeDiaryItem("text", text)]
  {
    d := FirstVisit();
    d.AddEntryClick(now);
    d.EditText(0, text);
    d.ChangeEvent([true]);
  }

  /** A first visit: empty storage, and the page started with nothing to show. */
  method FirstVisit() returns (d: Diary)
    ensures fresh(d) && d.Valid() && d.wired && !d.unsupported
    ensures d.page == [] && d.areas == [] && d.store == map[]
  {
    d := new Diary(map[]);
    EmptyStoreLoadsNothing();
    var s := d.Initialize(true, []);
  }

  /**
   * Start with an empty store, add a text entry, type "hello", commit, and load the
   * page again: exactly one text entry showing "hello".
   */
  method SaveAndReload(now: nat)
  {
    var d := WriteOneEntry(now, "hello");
    var key := DiaryKey(now);
    LoadSavedTextEntry(key, "hello");
    var reloaded := new Diary(d.store);
    var started := reloaded.Initialize(true, [key]);
    assert started == Started(true);
    assert reloaded.Rendering() == [TextShown(key, "hello")];
  }

  /** A text entry that was saved and then deleted comes back with the next change event. */
  method DeleteThenChange(now: nat)
  {
    var d := WriteOneEntry(now, "note");
    var key := DiaryKey(now);
    d.DeleteEntry(0);
    assert key !in d.store && d.page == [];
    ghost var afterDelete := d.store;
    d.ChangeEvent([true]);
    SaveAllLastWins(afterDelete, d.areas, [true], 0);
    assert ParseItem(d.store[key]) == Some(Item("text", "note"));
  }
}
