/** The persisted group store: `groups.json`, read in full and rewritten in
    full by every mutation. The file's JSON text is modelled as the list of ids
    itself; `None` is a file that does not exist yet. `writes` counts how many
    times the file has been overwritten, so that "no write when nothing
    changed" can be stated. */
module Storage {
  import opened Wrappers
  import opened Groups

  /** What is on disk, together with the number of writes so far. */
  datatype StoreState = StoreState(file: Option<seq<int>>, writes: nat)

  /** `load_groups`: a missing file reads as the empty list. */
  function Loaded(file: Option<seq<int>>): seq<int> {
    match file
    case None => []
    case Some(groups) => groups
  }

  /** The effect of `add_group(x)` on the disk. */
  function AddTo(st: StoreState, x: int): StoreState {
    var groups := Loaded(st.file);
    if x !in groups then StoreState(Some(groups + [x]), st.writes + 1) else st
  }

  /** The effect of `remove_group(x)` on the disk. */
  function RemoveFrom(st: StoreState, x: int): StoreState {
    var groups := Loaded(st.file);
    if x in groups then StoreState(Some(RemoveFirst(groups, x)), st.writes + 1) else st
  }

  /** After `add_group(x)` the id is stored; an absent id is appended at the
      end with one write, a present one changes nothing and writes nothing. */
  lemma AddToSpec(st: StoreState, x: int)
    ensures x in Loaded(AddTo(st, x).file)
    ensures x !in Loaded(st.file) ==>
      AddTo(st, x).file == Some(Loaded(st.file) + [x]) && AddTo(st, x).writes == st.writes + 1
    ensures x in Loaded(st.file) ==> AddTo(st, x) == st
  {
  }

  /** A store without a file becomes the one-element list `[x]`. */
  lemma AddToMissingFile(writes: nat, x: int)
    ensures AddTo(StoreState(None, writes), x) == StoreState(Some([x]), writes + 1)
  {
    assert Loaded(None) + [x] == [x];
  }

  /** `add_group` is idempotent: a second call neither changes nor writes. */
  lemma AddToIdempotent(st: StoreState, x: int)
    ensures AddTo(AddTo(st, x), x) == AddTo(st, x)
  {
  }

  /** `remove_group(x)` on an absent id changes nothing and writes nothing; on
      a present id it writes once and cuts out its first occurrence, keeping the
      order of the other ids. */
  lemma RemoveFromSpec(st: StoreState, x: int)
    ensures x !in Loaded(st.file) ==> RemoveFrom(st, x) == st
    ensures x in Loaded(st.file) ==>
      var groups := Loaded(st.file);
      var k := IndexOf(groups, x);
      RemoveFrom(st, x).file == Some(groups[..k] + groups[k + 1..]) &&
      RemoveFrom(st, x).writes == st.writes + 1
  {
    if x in Loaded(st.file) {
      RemoveFirstIsSplice(Loaded(st.file), x);
    }
  }

  /** Removing an id twice is the same as removing it once, when the store
      holds no duplicates. */
  lemma RemoveFromIdempotent(st: StoreState, x: int)
    requires NoDuplicates(Loaded(st.file))
    ensures RemoveFrom(RemoveFrom(st, x), x) == RemoveFrom(st, x)
  {
    RemoveFirstNoDuplicates(Loaded(st.file), x);
  }

  /** Both mutators write exactly when the stored list changes. */
  lemma WritesOnlyOnChange(st: StoreState, x: int)
    ensures AddTo(st, x).writes == st.writes <==> Loaded(AddTo(st, x).file) == Loaded(st.file)
    ensures RemoveFrom(st, x).writes == st.writes <==> Loaded(RemoveFrom(st, x).file) == Loaded(st.file)
    ensures AddTo(st, x).writes <= st.writes + 1 && RemoveFrom(st, x).writes <= st.writes + 1
  {
    var groups := Loaded(st.file);
    if x !in groups {
      assert |groups + [x]| != |groups|;
    }
    if x in groups {
      assert |RemoveFirst(groups, x)| != |groups|;
    }
  }

  /** Both mutators keep the store free of duplicates, and on such a store
      they behave as set insertion and set deletion. */
  lemma MutatorsKeepNoDuplicates(st: StoreState, x: int)
    requires NoDuplicates(Loaded(st.file))
    ensures NoDuplicates(Loaded(AddTo(st, x).file))
    ensures NoDuplicates(Loaded(RemoveFrom(st, x).file))
    ensures forall y :: y in Loaded(AddTo(st, x).file) <==> y in Loaded(st.file) || y == x
    ensures forall y :: y in Loaded(RemoveFrom(st, x).file) <==> y in Loaded(st.file) && y != x
  {
    if x !in Loaded(st.file) {
      AppendNoDuplicates(Loaded(st.file), x);
    }
    RemoveFirstNoDuplicates(Loaded(st.file), x);
  }

  /** Removing an id that was just added restores the stored list (with two
      writes on the way when it was absent). */
  lemma RemoveUndoesAdd(st: StoreState, x: int)
    requires x !in Loaded(st.file)
    ensures Loaded(RemoveFrom(AddTo(st, x), x).file) == Loaded(st.file)
    ensures RemoveFrom(AddTo(st, x), x).writes == st.writes + 2
  {
    var groups := Loaded(st.file);
    RemoveFirstAfterPrefix(groups, x, []);
    assert groups + [x] + [] == groups + [x];
    assert groups + [] == groups;
  }

  /** The store as the program sees it: one file and its write counter. */
  class GroupStore {
    var file: Option<seq<int>>
    var writes: nat

    function State(): StoreState
      reads this
    {
      StoreState(file, writes)
    }

    /** A store over an existing (or missing) file, with no writes yet. */
    constructor (initial: Option<seq<int>>)
      ensures State() == StoreState(initial, 0)
    {
      file := initial;
      writes := 0;
    }

    /** `load_groups`: the stored list, or `[]` when there is no file. */
    method Load() returns (groups: seq<int>)
      ensures file.None? ==> groups == []
      ensures file.Some? ==> groups == file.value
    {
      if file.Some? {
        groups := file.value;
      } else {
        groups := [];
      }
    }

    /** `save_groups`: overwrite the whole file. */
    method Save(groups: seq<int>)
      modifies this
      ensures file == Some(groups) && writes == old(writes) + 1
    {
      file := Some(groups);
      writes := writes + 1;
    }

    /** `add_group`: load, append when absent, and save only then. */
    method AddGroup(chatId: int)
      modifies this
      ensures State() == AddTo(old(State()), chatId)
    {
      var groups := Load();
      if chatId !in groups {
        groups := groups + [chatId];
        Save(groups);
      }
    }

    /** `remove_group`: load, remove the first occurrence when present, and
        save only then. */
    method RemoveGroup(chatId: int)
      modifies this
      ensures State() == RemoveFrom(old(State()), chatId)
    {
      var groups := Load();
      if chatId in groups {
        groups := RemoveFirst(groups, chatId);
        Save(groups);
      }
    }
  }
}
