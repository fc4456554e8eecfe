/**
 * `SessionVisibilityStore`: the set of session names the user has hidden and
 * two switches (auto-hide exited sessions, show hidden sessions), kept in the
 * browser's `localStorage` under three keys.  `localStorage` is a string map
 * that the store shares with the rest of the page; the hidden names are kept
 * there as the JSON text of an array of strings.
 */
module VisibilityStore {
  import opened Base
  import Json

  /** `STORAGE_KEYS`. */
  const HiddenSessionsKey: string := "zview_hidden_sessions"
  const AutoHideExitedKey: string := "zview_auto_hide_exited"
  const ShowHiddenKey: string := "zview_show_hidden"

  /** `Object.values(STORAGE_KEYS)`, in declaration order. */
  const StorageKeys: seq<string> := [HiddenSessionsKey, AutoHideExitedKey, ShowHiddenKey]

  /** The three settings live under three different keys. */
  lemma StorageKeysDistinct()
    ensures |StorageKeys| == 3
    ensures forall i, j :: 0 <= i < j < |StorageKeys| ==> StorageKeys[i] != StorageKeys[j]
  {
  }

  predicate NoDuplicates(names: seq<string>)
  {
    forall i, j :: 0 <= i < j < |names| ==> names[i] != names[j]
  }

  /** The position of the first occurrence of `x`. */
  function FirstIndex(names: seq<string>, x: string): (i: nat)
    requires x in names
    ensures i < |names| && names[i] == x && x !in names[..i]
  {
    if names[0] == x then 0 else 1 + FirstIndex(names[1..], x)
  }

  /** `set.add(name)` on a set kept as its insertion order. */
  function SetAdd(names: seq<string>, name: string): (r: seq<string>)
    ensures forall x :: x in r <==> x in names || x == name
    ensures NoDuplicates(names) ==> NoDuplicates(r)
    ensures |names| <= |r| && r[..|names|] == names
  {
    if name in names then names else names + [name]
  }

  /** `set.delete(name)` on a set kept as its insertion order. */
  function SetDelete(names: seq<string>, name: string): (r: seq<string>)
    ensures forall x :: x in r <==> x in names && x != name
    ensures NoDuplicates(names) ==> NoDuplicates(r)
    ensures name !in names ==> r == names
  {
    if names == [] then []
    else
      var rest := SetDelete(names[1..], name);
      assert forall x :: x in names <==> x == names[0] || x in names[1..];
      if names[0] == name then rest
      else
        assert NoDuplicates(names) ==> names[0] !in names[1..];
        [names[0]] + rest
  }

  /** `Set.delete` keeps the other names in their insertion order: deleting from a concatenation deletes from each part. */
  lemma {:induction false} SetDeleteAppend(a: seq<string>, b: seq<string>, name: string)
    ensures SetDelete(a + b, name) == SetDelete(a, name) + SetDelete(b, name)
    decreases |a|
  {
    if a == [] {
      assert a + b == b;
    } else {
      assert (a + b)[0] == a[0];
      assert (a + b)[1..] == a[1..] + b;
      SetDeleteAppend(a[1..], b, name);
      if a[0] != name {
        assert [a[0]] + (SetDelete(a[1..], name) + SetDelete(b, name))
            == ([a[0]] + SetDelete(a[1..], name)) + SetDelete(b, name);
      }
    }
  }

  /** `[...new Set(names)]`: every name once, in the order of its first appearance. */
  function Distinct(names: seq<string>): (r: seq<string>)
    ensures NoDuplicates(r)
    ensures forall x :: x in r <==> x in names
  {
    if names == [] then []
    else
      var init := names[..|names| - 1];
      assert forall x :: x in names <==> x in init || x == names[|names| - 1];
      SetAdd(Distinct(init), names[|names| - 1])
  }

  /** A list without duplicates is its own set. */
  lemma {:induction false} DistinctOfDistinct(names: seq<string>)
    requires NoDuplicates(names)
    ensures Distinct(names) == names
  {
    if names != [] {
      var init := names[..|names| - 1];
      DistinctOfDistinct(init);
      assert names[|names| - 1] !in init;
      assert init + [names[|names| - 1]] == names;
    }
  }

  /** `Distinct` keeps the order in which the names first appear. */
  lemma {:induction false} DistinctKeepsFirstOrder(names: seq<string>)
    ensures forall i, j :: 0 <= i < j < |Distinct(names)| ==>
      FirstIndex(names, Distinct(names)[i]) < FirstIndex(names, Distinct(names)[j])
  {
    if names != [] {
      var init := names[..|names| - 1];
      var last := names[|names| - 1];
      DistinctKeepsFirstOrder(init);
      var d := Distinct(init);
      forall x | x in init ensures FirstIndex(names, x) == FirstIndex(init, x) {
        FirstIndexOfPrefix(names, init, x);
      }
      if last !in init {
        assert FirstIndex(names, last) == |init|;
        assert Distinct(names) == d + [last];
        forall i | 0 <= i < |d| ensures FirstIndex(names, d[i]) < |init| {
          assert d[i] in init;
        }
      }
    }
  }

  /** First occurrences found in a prefix are first occurrences in the whole list. */
  lemma {:induction false} FirstIndexOfPrefix(names: seq<string>, prefix: seq<string>, x: string)
    requires |prefix| <= |names| && prefix == names[..|prefix|] && x in prefix
    ensures x in names && FirstIndex(names, x) == FirstIndex(prefix, x)
  {
    assert names[FirstIndex(prefix, x)] == x;
    if names[0] != x {
      assert prefix[1..] == names[1..][..|prefix| - 1];
      FirstIndexOfPrefix(names[1..], prefix[1..], x);
    }
  }

  /** `value.toString()` of a boolean. */
  function BoolText(b: bool): (text: string)
    ensures text == "true" <==> b
    ensures text == "false" <==> !b
  {
    if b then "true" else "false"
  }

  /** What `getHiddenSessions` returns: nothing when the key is absent, empty or unreadable. */
  function HiddenIn(store: map<string, string>): seq<string>
  {
    if HiddenSessionsKey !in store || store[HiddenSessionsKey] == "" then []
    else
      match Json.Parse(store[HiddenSessionsKey])
      case Some(names) => names
      case None => []
  }

  /** What `getAutoHideExited` returns: true unless the stored text is exactly `false`. */
  function AutoHideExitedIn(store: map<string, string>): bool
  {
    !(AutoHideExitedKey in store && store[AutoHideExitedKey] == "false")
  }

  /** What `getShowHidden` returns: true only when the stored text is exactly `true`. */
  function ShowHiddenIn(store: map<string, string>): bool
  {
    ShowHiddenKey in store && store[ShowHiddenKey] == "true"
  }

  /** The store after `hideSession(name)`. */
  function Hide(store: map<string, string>, name: string): map<string, string>
  {
    store[HiddenSessionsKey := Json.Stringify(SetAdd(Distinct(HiddenIn(store)), name))]
  }

  /** The store after `unhideSession(name)`. */
  function Unhide(store: map<string, string>, name: string): map<string, string>
  {
    store[HiddenSessionsKey := Json.Stringify(SetDelete(Distinct(HiddenIn(store)), name))]
  }

  /** The store after `clearAll()`. */
  function Cleared(store: map<string, string>): map<string, string>
  {
    store - set k | k in StorageKeys
  }

  /** Whatever list is written under the hidden-sessions key reads back as itself. */
  lemma HiddenRoundTrip(store: map<string, string>, names: seq<string>)
    ensures HiddenIn(store[HiddenSessionsKey := Json.Stringify(names)]) == names
  {
    Json.ParseStringify(names);
  }

  /**
   * After hiding, the list is the old one without duplicates, with the name
   * appended if it was not there: every old name is kept, nothing else is added.
   */
  lemma HiddenAfterHide(store: map<string, string>, name: string)
    ensures HiddenIn(Hide(store, name)) == SetAdd(Distinct(HiddenIn(store)), name)
    ensures NoDuplicates(HiddenIn(Hide(store, name)))
    ensures forall x :: x in HiddenIn(Hide(store, name)) <==> x in HiddenIn(store) || x == name
  {
    var d := Distinct(HiddenIn(store));
    HiddenRoundTrip(store, SetAdd(d, name));
    if name !in d {
      assert forall i, j :: 0 <= i < j < |d + [name]| ==> (d + [name])[i] != (d + [name])[j] by {
        forall i, j | 0 <= i < j < |d + [name]| ensures (d + [name])[i] != (d + [name])[j] {
          if j == |d| {
            assert (d + [name])[i] == d[i];
          }
        }
      }
    }
  }

  /** Hiding a name a second time changes nothing. */
  lemma HideIdempotent(store: map<string, string>, name: string)
    ensures Hide(Hide(store, name), name) == Hide(store, name)
  {
    HiddenAfterHide(store, name);
    var once := HiddenIn(Hide(store, name));
    assert name in once;
    DistinctOfDistinct(once);
    assert SetAdd(Distinct(once), name) == once;
    assert Hide(store, name)[HiddenSessionsKey] == Json.Stringify(once);
  }

  /** After unhiding, the name is gone and every other name stays, in its old order. */
  lemma HiddenAfterUnhide(store: map<string, string>, name: string)
    ensures HiddenIn(Unhide(store, name)) == SetDelete(Distinct(HiddenIn(store)), name)
    ensures NoDuplicates(HiddenIn(Unhide(store, name)))
    ensures forall x :: x in HiddenIn(Unhide(store, name)) <==> x in HiddenIn(store) && x != name
  {
    HiddenRoundTrip(store, SetDelete(Distinct(HiddenIn(store)), name));
  }

  /** Unhiding a name that is not hidden leaves the set as it was. */
  lemma UnhideAbsent(store: map<string, string>, name: string)
    requires name !in HiddenIn(store)
    ensures HiddenIn(Unhide(store, name)) == Distinct(HiddenIn(store))
  {
    HiddenAfterUnhide(store, name);
  }

  /** Unhiding undoes hiding a name that was not hidden. */
  lemma UnhideUndoesHide(store: map<string, string>, name: string)
    requires name !in HiddenIn(store)
    ensures HiddenIn(Unhide(Hide(store, name), name)) == Distinct(HiddenIn(store))
  {
    var d := Distinct(HiddenIn(store));
    HiddenAfterHide(store, name);
    assert HiddenIn(Hide(store, name)) == d + [name];
    DistinctOfDistinct(d + [name]);
    HiddenAfterUnhide(Hide(store, name), name);
    SetDeleteLast(d, name);
  }

  lemma {:induction false} SetDeleteLast(names: seq<string>, name: string)
    requires name !in names
    ensures SetDelete(names + [name], name) == names
  {
    if names == [] {
      assert [name][1..] == [];
    } else {
      assert (names + [name])[1..] == names[1..] + [name];
      SetDeleteLast(names[1..], name);
      assert [names[0]] + names[1..] == names;
    }
  }

  /** Each switch reads back what was last written to it. */
  lemma SwitchesRoundTrip(store: map<string, string>, b: bool)
    ensures AutoHideExitedIn(store[AutoHideExitedKey := BoolText(b)]) == b
    ensures ShowHiddenIn(store[ShowHiddenKey := BoolText(b)]) == b
  {
  }

  /** Writing one setting does not change what the others read. */
  lemma SettingsIndependent(store: map<string, string>, name: string, b: bool)
    ensures HiddenIn(store[AutoHideExitedKey := BoolText(b)]) == HiddenIn(store)
    ensures ShowHiddenIn(store[AutoHideExitedKey := BoolText(b)]) == ShowHiddenIn(store)
    ensures HiddenIn(store[ShowHiddenKey := BoolText(b)]) == HiddenIn(store)
    ensures AutoHideExitedIn(store[ShowHiddenKey := BoolText(b)]) == AutoHideExitedIn(store)
    ensures AutoHideExitedIn(Hide(store, name)) == AutoHideExitedIn(store)
    ensures ShowHiddenIn(Hide(store, name)) == ShowHiddenIn(store)
    ensures AutoHideExitedIn(Unhide(store, name)) == AutoHideExitedIn(store)
    ensures ShowHiddenIn(Unhide(store, name)) == ShowHiddenIn(store)
  {
  }

  /** An empty store reads as the defaults: nothing hidden, auto-hide on, show-hidden off. */
  lemma Defaults()
    ensures HiddenIn(map[]) == [] && AutoHideExitedIn(map[]) && !ShowHiddenIn(map[])
  {
  }

  /**
   * Clearing removes exactly the three keys, leaves every other key as it was,
   * and the getters are back at their defaults.
   */
  lemma ClearedStore(store: map<string, string>)
    ensures HiddenIn(Cleared(store)) == [] && AutoHideExitedIn(Cleared(store)) && !ShowHiddenIn(Cleared(store))
    ensures forall k :: k in StorageKeys ==> k !in Cleared(store)
    ensures forall k :: k !in StorageKeys ==> (k in Cleared(store) <==> k in store)
    ensures forall k :: k !in StorageKeys && k in store ==> Cleared(store)[k] == store[k]
  {
  }

  class SessionVisibilityStore {
    /** The browser's `localStorage`, which other code on the page may also use. */
    var storage: map<string, string>

    constructor(storage: map<string, string>)
      ensures this.storage == storage
    {
      this.storage := storage;
    }

    method GetHiddenSessions() returns (names: seq<string>)
      ensures names == HiddenIn(storage)
    {
      if HiddenSessionsKey in storage && storage[HiddenSessionsKey] != "" {
        var parsed := Json.Parse(storage[HiddenSessionsKey]);
        names := if parsed.Some? then parsed.value else [];
      } else {
        names := [];
      }
    }

    method HideSession(name: string)
      modifies this
      ensures storage == Hide(old(storage), name)
    {
      var hidden := GetHiddenSessions();
      var names := Distinct(hidden);
      names := SetAdd(names, name);
      storage := storage[HiddenSessionsKey := Json.Stringify(names)];
    }

    method UnhideSession(name: string)
      modifies this
      ensures storage == Unhide(old(storage), name)
    {
      var hidden := GetHiddenSessions();
      var names := Distinct(hidden);
      names := SetDelete(names, name);
      storage := storage[HiddenSessionsKey := Json.Stringify(names)];
    }

    method GetAutoHideExited() returns (enabled: bool)
      ensures enabled == AutoHideExitedIn(storage)
    {
      enabled := !(AutoHideExitedKey in storage && storage[AutoHideExitedKey] == "false");
    }

    method SetAutoHideExited(enabled: bool)
      modifies this
      ensures storage == old(storage)[AutoHideExitedKey := BoolText(enabled)]
    {
      storage := storage[AutoHideExitedKey := BoolText(enabled)];
    }

    method GetShowHidden() returns (show: bool)
      ensures show == ShowHiddenIn(storage)
    {
      show := ShowHiddenKey in storage && storage[ShowHiddenKey] == "true";
    }

    method SetShowHidden(show: bool)
      modifies this
      ensures storage == old(storage)[ShowHiddenKey := BoolText(show)]
    {
      storage := storage[ShowHiddenKey := BoolText(show)];
    }

    /** Removes the keys one by one, in the order of `StorageKeys`. */
    method ClearAll()
      modifies this
      ensures storage == Cleared(old(storage))
    {
      for i := 0 to |StorageKeys|
        invariant storage == old(storage) - set j | 0 <= j < i :: StorageKeys[j]
      {
        storage := storage - {StorageKeys[i]};
      }
    }
  }
}
