/** The in-memory store of received documents (`Storage`): an ordered list of
    `(id, value)` entries that is written out in full after every change. The
    file system is replaced by a flag saying whether a write succeeds and a log
    of the lists written; the clock that makes ids is replaced by a parameter. */
module Storage {

  /** One stored document: its id (the arrival time in milliseconds, as text)
      and its JSON value. */
  datatype Entry<V> = Entry(id: string, value: V)

  /** `io::Result<T>`: a value, or an I/O error. */
  datatype IoResult<T> = Ok(value: T) | Err

  /** What start-up found: no data file, a failure (the data directory cannot
      be created or the file cannot be opened or read), a file that does not
      parse, or the parsed entries. */
  datatype Load<V> = Missing | ReadFailed | Unparsable | Parsed(entries: seq<Entry<V>>)

  /** The list `Storage::new` starts from: the file's entries when they parse,
      an empty list when the file is missing or does not parse, and an error
      when the file exists but cannot be read. */
  function Initial<V>(load: Load<V>): (r: IoResult<seq<Entry<V>>>)
    ensures r.Err? <==> load.ReadFailed?
    ensures r.Ok? && r.value != [] ==> load.Parsed? && r.value == load.entries
    ensures load.Parsed? ==> r == Ok(load.entries)
  {
    match load
    case Missing => Ok([])
    case ReadFailed => Err
    case Unparsable => Ok([])
    case Parsed(entries) => Ok(entries)
  }

  /** The entries whose id is not `id`, in their original order. */
  function Without<V>(entries: seq<Entry<V>>, id: string): (kept: seq<Entry<V>>)
    ensures |kept| <= |entries|
    ensures forall i :: 0 <= i < |kept| ==> kept[i].id != id && kept[i] in entries
    ensures forall i :: 0 <= i < |entries| && entries[i].id != id ==> entries[i] in kept
  {
    if entries == [] then []
    else (if entries[0].id == id then [] else [entries[0]]) + Without(entries[1..], id)
  }

  /** Some entry carries `id`. */
  predicate HasId<V>(entries: seq<Entry<V>>, id: string) {
    exists i :: 0 <= i < |entries| && entries[i].id == id
  }

  /** How many entries carry `id`. */
  function CountId<V>(entries: seq<Entry<V>>, id: string): nat {
    if entries == [] then 0
    else (if entries[0].id == id then 1 else 0) + CountId(entries[1..], id)
  }

  /** Removing works entry by entry: it distributes over concatenation, so
      the entries kept stay in the order they had. */
  lemma {:induction false} WithoutAppend<V>(a: seq<Entry<V>>, b: seq<Entry<V>>, id: string)
    ensures Without(a + b, id) == Without(a, id) + Without(b, id)
    decreases |a|
  {
    if a == [] {
      assert a + b == b;
    } else {
      assert (a + b)[0] == a[0];
      assert (a + b)[1..] == a[1..] + b;
      WithoutAppend(a[1..], b, id);
    }
  }

  /** Exactly the entries carrying `id` are dropped. */
  lemma {:induction false} WithoutCount<V>(entries: seq<Entry<V>>, id: string)
    ensures |Without(entries, id)| + CountId(entries, id) == |entries|
    decreases |entries|
  {
    if entries != [] {
      WithoutCount(entries[1..], id);
    }
  }

  /** An entry carries `id` exactly when some entry is counted. */
  lemma {:induction false} CountIdPositive<V>(entries: seq<Entry<V>>, id: string)
    ensures CountId(entries, id) > 0 <==> HasId(entries, id)
    decreases |entries|
  {
    if entries != [] {
      CountIdPositive(entries[1..], id);
      if HasId(entries[1..], id) {
        var i :| 0 <= i < |entries[1..]| && entries[1..][i].id == id;
        assert entries[i + 1].id == id;
      }
      if HasId(entries, id) && entries[0].id != id {
        var i :| 0 <= i < |entries| && entries[i].id == id;
        assert entries[1..][i - 1].id == id;
      }
    }
  }

  /** The list gets shorter exactly when some entry carries `id`; this is what
      `delete` reports as `found`. */
  lemma ShrinksIffPresent<V>(entries: seq<Entry<V>>, id: string)
    ensures |Without(entries, id)| < |entries| <==> HasId(entries, id)
  {
    WithoutCount(entries, id);
    CountIdPositive(entries, id);
  }

  /** With no entry carrying `id`, nothing is removed. */
  lemma {:induction false} WithoutAbsent<V>(entries: seq<Entry<V>>, id: string)
    requires !HasId(entries, id)
    ensures Without(entries, id) == entries
    decreases |entries|
  {
    if entries != [] {
      assert entries[0].id != id;
      assert !HasId(entries[1..], id) by {
        forall i | 0 <= i < |entries[1..]|
          ensures entries[1..][i].id != id
        {
          assert entries[1..][i] == entries[i + 1];
        }
      }
      WithoutAbsent(entries[1..], id);
      assert [entries[0]] + entries[1..] == entries;
    }
  }

  /** Removing twice removes nothing more. */
  lemma WithoutIdempotent<V>(entries: seq<Entry<V>>, id: string)
    ensures Without(Without(entries, id), id) == Without(entries, id)
  {
    WithoutAbsent(Without(entries, id), id);
  }

  /** Deleting an id removes an entry just added under it together with every
      earlier entry carrying it, and keeps the rest. */
  lemma DeleteUndoesAdd<V>(entries: seq<Entry<V>>, id: string, value: V)
    ensures Without(entries + [Entry(id, value)], id) == Without(entries, id)
  {
    WithoutAppend(entries, [Entry(id, value)], id);
    assert Without([Entry(id, value)], id) == [];
  }

  /** `Vec::retain` keeping the entries whose id is not `id`. */
  method RetainOthers<V>(entries: seq<Entry<V>>, id: string) returns (kept: seq<Entry<V>>)
    ensures kept == Without(entries, id)
  {
    kept := [];
    for i := 0 to |entries|
      invariant kept == Without(entries[..i], id)
    {
      WithoutAppend(entries[..i], [entries[i]], id);
      assert entries[..i + 1] == entries[..i] + [entries[i]];
      if entries[i].id != id {
        kept := kept + [entries[i]];
      }
    }
    assert entries[..|entries|] == entries;
  }

  class Storage<V> {
    /** The entries, oldest first. */
    var data: seq<Entry<V>>
    /** Every list written to the data file so far, in order. */
    var saves: seq<seq<Entry<V>>>

    /** `Storage::new` once the start-up list is known (see `Initial`). */
    constructor (loaded: seq<Entry<V>>)
      ensures data == loaded && saves == []
    {
      data := loaded;
      saves := [];
    }

    /** `save_to_file`: writes the whole list; `diskOk` says whether opening
        and writing the file succeed. */
    method SaveToFile(diskOk: bool) returns (r: IoResult<()>)
      modifies this
      ensures data == old(data)
      ensures saves == if diskOk then old(saves) + [data] else old(saves)
      ensures r == if diskOk then Ok(()) else Err
    {
      if diskOk {
        saves := saves + [data];
        r := Ok(());
      } else {
        r := Err;
      }
    }

    /** `add_json`: appends the entry in memory, then saves; the result is the
        save's, and the entry stays in memory even when the save fails. */
    method AddJson(id: string, value: V, diskOk: bool) returns (r: IoResult<()>)
      modifies this
      ensures data == old(data) + [Entry(id, value)]
      ensures saves == if diskOk then old(saves) + [data] else old(saves)
      ensures r.Ok? <==> diskOk
    {
      data := data + [Entry(id, value)];
      r := SaveToFile(diskOk);
    }

    /** `get_all`: a copy of the entries. */
    method GetAll() returns (all: seq<Entry<V>>)
      ensures all == data
    {
      all := data;
    }

    /** `delete`: drops every entry carrying `id`; reports whether any was
        dropped, and saves only then. A failed save is an error although the
        entries are already gone from memory. */
    method Delete(id: string, diskOk: bool) returns (r: IoResult<bool>)
      modifies this
      ensures data == Without(old(data), id)
      ensures !HasId(data, id)
      ensures !HasId(old(data), id) ==> data == old(data)
      ensures var found := HasId(old(data), id);
        && r == (if !found then Ok(false) else if diskOk then Ok(true) else Err)
        && saves == (if found && diskOk then old(saves) + [data] else old(saves))
    {
      var lenBefore := |data|;
      ShrinksIffPresent(data, id);
      if !HasId(data, id) {
        WithoutAbsent(data, id);
      }
      data := RetainOthers(data, id);
      var found := |data| < lenBefore;
      if found {
        var saved := SaveToFile(diskOk);
        if saved.Err? {
          return Err;
        }
      }
      r := Ok(found);
    }
  }
}
