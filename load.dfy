/**
 * What the load pass showEntries renders from local storage: the keys with the
 * "diary" prefix, sorted, each decoded and dispatched on its type. A record that does
 * not decode makes JSON.parse throw, which ends the pass with the entries rendered
 * so far left on the page.
 */
module Load {
  import opened Wrappers
  import opened Codec
  import opened Keys

  /** One rendered entry: a text entry with its text, or an image entry with its source. */
  datatype Rendered = TextShown(key: string, text: string) | ImageShown(key: string, src: string)

  /** What a (part of a) load pass rendered, and whether it ran to the end. */
  datatype Loaded = Loaded(shown: seq<Rendered>, completed: bool)

  /** The keys of rendered entries, in page order. */
  function KeysOf(shown: seq<Rendered>): (r: seq<string>)
    ensures |r| == |shown| && forall i :: 0 <= i < |shown| ==> r[i] == shown[i].key
  {
    seq(|shown|, i requires 0 <= i < |shown| => shown[i].key)
  }

  /** The first loop of showEntries: the enumerated keys that pass the prefix test, in enumeration order. */
  function DiaryKeysOf(keys: seq<string>): (r: seq<string>)
    ensures forall k :: k in r <==> k in keys && IsDiaryKey(k)
    ensures Distinct(keys) ==> Distinct(r)
  {
    if keys == [] then []
    else
      var init, k := keys[..|keys| - 1], keys[|keys| - 1];
      assert keys == init + [k];
      DiaryKeysOf(init) + (if IsDiaryKey(k) then [k] else [])
  }

  /** The dispatch on the decoded item's type: text, image, or nothing for any other type. */
  function Dispatch(key: string, item: Item): (r: seq<Rendered>)
    ensures |r| <= 1 && forall e :: e in r ==> e.key == key
    ensures r != [] <==> item.kind == "text" || item.kind == "image"
  {
    if item.kind == "text" then [TextShown(key, item.data)]
    else if item.kind == "image" then [ImageShown(key, item.data)]
    else []
  }

  /** The second loop of showEntries over the given keys, in order; stops at the first record that does not decode. */
  function LoadKeys(store: map<string, string>, keys: seq<string>): (r: Loaded)
    requires forall k :: k in keys ==> k in store
    ensures |r.shown| <= |keys|
  {
    if keys == [] then Loaded([], true)
    else
      var init, k := keys[..|keys| - 1], keys[|keys| - 1];
      var prior := LoadKeys(store, init);
      if !prior.completed then prior
      else
        match ParseItem(store[k])
        case None => Loaded(prior.shown, false)
        case Some(item) => Loaded(prior.shown + Dispatch(k, item), true)
  }

  /** The enumeration the browser gives of a store's keys: each key once, in some order. */
  predicate Enumerates(store: map<string, string>, enumeration: seq<string>)
  {
    && Distinct(enumeration)
    && (forall k :: k in enumeration ==> k in store)
    && (forall k :: k in store ==> k in enumeration)
  }

  /** The keys showEntries visits, in the order it renders them. */
  function SortedDiaryKeys(store: map<string, string>, enumeration: seq<string>): (r: seq<string>)
    requires Enumerates(store, enumeration)
    ensures StrictlySorted(r)
    ensures forall k :: k in r <==> k in store && IsDiaryKey(k)
  {
    var r := Sort(DiaryKeysOf(enumeration));
    assert forall k :: k in r <==> k in multiset(r);
    r
  }

  /** The whole load pass of showEntries over a store. */
  function LoadPass(store: map<string, string>, enumeration: seq<string>): (r: Loaded)
    requires Enumerates(store, enumeration)
    ensures forall e :: e in r.shown ==> e.key in store && IsDiaryKey(e.key)
  {
    var keys := SortedDiaryKeys(store, enumeration);
    LoadShowsOnlyDecoded(store, keys);
    LoadKeys(store, keys)
  }

  // ---------------------------------------------------------------------------
  // Properties of the load pass

  /** The pass runs to the end exactly when every visited record decodes; an unknown type does not stop it. */
  lemma {:induction false} LoadCompletesIff(store: map<string, string>, keys: seq<string>)
    requires forall k :: k in keys ==> k in store
    ensures LoadKeys(store, keys).completed <==> forall k :: k in keys ==> ParseItem(store[k]).Some?
    decreases |keys|
  {
    if keys != [] {
      var init := keys[..|keys| - 1];
      assert keys == init + [keys[|keys| - 1]];
      LoadCompletesIff(store, init);
    }
  }

  /** Every rendered entry comes from a visited key whose record decodes to an item of that type and data. */
  lemma {:induction false} LoadShowsOnlyDecoded(store: map<string, string>, keys: seq<string>)
    requires forall k :: k in keys ==> k in store
    ensures forall e :: e in LoadKeys(store, keys).shown ==>
      e.key in keys && ParseItem(store[e.key]).Some? &&
      ParseItem(store[e.key]).value == Item(if e.TextShown? then "text" else "image", if e.TextShown? then e.text else e.src)
    decreases |keys|
  {
    if keys != [] {
      var init, k := keys[..|keys| - 1], keys[|keys| - 1];
      assert keys == init + [k];
      LoadShowsOnlyDecoded(store, init);
    }
  }

  /** When the pass completes, every visited text or image item is rendered. */
  lemma {:induction false} LoadShowsEveryItem(store: map<string, string>, keys: seq<string>)
    requires forall k :: k in keys ==> k in store
    ensures LoadKeys(store, keys).completed ==> forall k, d :: k in keys && ParseItem(store[k]) == Some(Item("text", d)) ==>
      TextShown(k, d) in LoadKeys(store, keys).shown
    ensures LoadKeys(store, keys).completed ==> forall k, d :: k in keys && ParseItem(store[k]) == Some(Item("image", d)) ==>
      ImageShown(k, d) in LoadKeys(store, keys).shown
    decreases |keys|
  {
    if keys != [] {
      var init, k := keys[..|keys| - 1], keys[|keys| - 1];
      assert keys == init + [k];
      LoadShowsEveryItem(store, init);
    }
  }

  /** Appending at most one entry for a key above all earlier ones keeps the page's keys ascending. */
  lemma AppendKeepsOrder(prior: seq<Rendered>, next: seq<Rendered>, k: string)
    requires StrictlySorted(KeysOf(prior))
    requires forall e :: e in prior ==> LexLess(e.key, k)
    requires |next| <= 1 && forall e :: e in next ==> e.key == k
    ensures StrictlySorted(KeysOf(prior + next))
  {
    var r := prior + next;
    var ks := KeysOf(r);
    forall i, j | 0 <= i < j < |ks| ensures LexLess(ks[i], ks[j]) {
      if j >= |prior| {
        assert r[i] in prior && r[j] in next;
      } else {
        assert KeysOf(prior)[i] == ks[i] && KeysOf(prior)[j] == ks[j];
      }
    }
  }

  /** Rendered keys follow the order of the visited keys, so sorted keys render in ascending order, each once. */
  lemma {:induction false} LoadKeepsOrder(store: map<string, string>, keys: seq<string>)
    requires forall k :: k in keys ==> k in store
    requires StrictlySorted(keys)
    ensures forall e :: e in LoadKeys(store, keys).shown ==> e.key in keys
    ensures StrictlySorted(KeysOf(LoadKeys(store, keys).shown))
    decreases |keys|
  {
    if keys != [] {
      var init, k := keys[..|keys| - 1], keys[|keys| - 1];
      assert keys == init + [k];
      LoadKeepsOrder(store, init);
      var prior := LoadKeys(store, init);
      forall e | e in prior.shown ensures LexLess(e.key, k) {
        var i :| 0 <= i < |init| && init[i] == e.key;
      }
      if prior.completed && ParseItem(store[k]).Some? {
        AppendKeepsOrder(prior.shown, Dispatch(k, ParseItem(store[k]).value), k);
      }
    }
  }

  /** Once the pass has stopped, later keys change nothing. */
  lemma {:induction false} LoadStopped(store: map<string, string>, keys: seq<string>, m: nat)
    requires forall k :: k in keys ==> k in store
    requires m <= |keys| && !LoadKeys(store, keys[..m]).completed
    ensures LoadKeys(store, keys) == LoadKeys(store, keys[..m])
    decreases |keys|
  {
    if m < |keys| {
      var init := keys[..|keys| - 1];
      assert init[..m] == keys[..m];
      LoadStopped(store, init, m);
    } else {
      assert keys[..m] == keys;
    }
  }

  /** One more key: its record decodes and is dispatched, or the pass stops there. */
  lemma LoadNextKey(store: map<string, string>, keys: seq<string>, i: nat)
    requires forall k :: k in keys ==> k in store
    requires i < |keys| && LoadKeys(store, keys[..i]).completed
    ensures ParseItem(store[keys[i]]).Some? ==>
      LoadKeys(store, keys[..i + 1]) == Loaded(LoadKeys(store, keys[..i]).shown + Dispatch(keys[i], ParseItem(store[keys[i]]).value), true)
    ensures ParseItem(store[keys[i]]).None? ==>
      LoadKeys(store, keys) == Loaded(LoadKeys(store, keys[..i]).shown, false)
  {
    assert keys[..i + 1][..i] == keys[..i];
    if ParseItem(store[keys[i]]).None? {
      LoadStopped(store, keys, i + 1);
    }
  }

  /**
   * A record that does not decode aborts the pass: what was rendered for the keys
   * before it stays, nothing after it is rendered.
   */
  lemma LoadAbortsAtFirstMalformed(store: map<string, string>, keys: seq<string>, j: nat)
    requires forall k :: k in keys ==> k in store
    requires j < |keys| && ParseItem(store[keys[j]]).None?
    requires forall i :: 0 <= i < j ==> ParseItem(store[keys[i]]).Some?
    ensures LoadKeys(store, keys) == Loaded(LoadKeys(store, keys[..j]).shown, false)
  {
    assert keys[..j + 1][..j] == keys[..j];
    LoadCompletesIff(store, keys[..j]);
    LoadStopped(store, keys, j + 1);
  }

  /** In a sequence without repetitions every element occurs once. */
  lemma {:induction false} DistinctMultiplicity(s: seq<string>, k: string)
    requires Distinct(s)
    ensures multiset(s)[k] == if k in s then 1 else 0
    decreases |s|
  {
    if s != [] {
      assert s == [s[0]] + s[1..];
      DistinctMultiplicity(s[1..], k);
    }
  }

  lemma SortedIsDistinct(s: seq<string>)
    requires StrictlySorted(s)
    ensures Distinct(s)
  {
    forall i, j | 0 <= i < j < |s| ensures s[i] != s[j] {
      LexIrreflexive(s[i]);
    }
  }

  /** Two sequences without repetitions and with the same elements are permutations of each other. */
  lemma DistinctSameElements(a: seq<string>, b: seq<string>)
    requires Distinct(a) && Distinct(b)
    requires forall k :: k in a <==> k in b
    ensures multiset(a) == multiset(b)
  {
    forall k ensures multiset(a)[k] == multiset(b)[k] {
      DistinctMultiplicity(a, k);
      DistinctMultiplicity(b, k);
    }
  }

  /**
   * The order in which the browser enumerates the keys does not matter: sorting makes
   * the load pass the same for every enumeration of the store.
   */
  lemma LoadPassIgnoresEnumerationOrder(store: map<string, string>, e1: seq<string>, e2: seq<string>)
    requires Enumerates(store, e1) && Enumerates(store, e2)
    ensures LoadPass(store, e1) == LoadPass(store, e2)
  {
    var s1, s2 := SortedDiaryKeys(store, e1), SortedDiaryKeys(store, e2);
    SortedIsDistinct(s1);
    SortedIsDistinct(s2);
    DistinctSameElements(s1, s2);
    SortedUnique(s1, s2);
  }

  /**
   * The load pass over a whole store: it renders only keys with the "diary" prefix,
   * in ascending order and each once; it completes exactly when every such record
   * decodes, and then every text or image item among them is rendered.
   */
  lemma LoadPassRendersDiaryKeys(store: map<string, string>, enumeration: seq<string>)
    requires Enumerates(store, enumeration)
    ensures StrictlySorted(KeysOf(LoadPass(store, enumeration).shown))
    ensures forall e :: e in LoadPass(store, enumeration).shown ==> e.key in store && IsDiaryKey(e.key)
    ensures LoadPass(store, enumeration).completed <==>
      forall k :: k in store && IsDiaryKey(k) ==> ParseItem(store[k]).Some?
    ensures LoadPass(store, enumeration).completed ==> forall k, d :: k in store && IsDiaryKey(k) && ParseItem(store[k]) == Some(Item("text", d)) ==>
      TextShown(k, d) in LoadPass(store, enumeration).shown
    ensures LoadPass(store, enumeration).completed ==> forall k, d :: k in store && IsDiaryKey(k) && ParseItem(store[k]) == Some(Item("image", d)) ==>
      ImageShown(k, d) in LoadPass(store, enumeration).shown
  {
    var keys := SortedDiaryKeys(store, enumeration);
    LoadKeepsOrder(store, keys);
    LoadShowsOnlyDecoded(store, keys);
    LoadShowsEveryItem(store, keys);
    LoadCompletesIff(store, keys);
  }
}
