/** `DataLoader` (code/anker/core/anker_data_loader.cpp): binary data looked
    up in an ordered list of sources, the first source that has a path
    answering for it. */
module DataLoader {
  import opened Wrappers
  import St = Status

  type Path = string
  type ByteBuffer = seq<bv8>

  /** An `IDataLoaderSource`, described by what it answers: the paths it has
      together with the status and bytes its `load` gives for each, and the
      paths its `modifiedFiles` reports. Sources are compared by identity,
      as the pointers in the loader's list are. */
  class Source {
    const files: map<Path, (St.Status, ByteBuffer)>
    const modified: set<Path>

    constructor (files: map<Path, (St.Status, ByteBuffer)>, modified: set<Path>)
      ensures this.files == files && this.modified == modified
    {
      this.files := files;
      this.modified := modified;
    }

    predicate Exists(path: Path) {
      path in files
    }
  }

  /** The position of the first source that has `path`. */
  function FirstWith(sources: seq<Source>, path: Path): (r: Option<nat>)
    ensures r.Some? ==> r.value < |sources| && sources[r.value].Exists(path)
                        && forall j | 0 <= j < r.value :: !sources[j].Exists(path)
    ensures r.None? <==> forall j | 0 <= j < |sources| :: !sources[j].Exists(path)
  {
    if |sources| == 0 then None
    else if sources[0].Exists(path) then Some(0)
    else match FirstWith(sources[1..], path)
      case None => None
      case Some(k) => Some(k + 1)
  }

  /** Sources registered after the one that answers are never consulted. */
  lemma {:induction false} LaterSourcesIgnored(sources: seq<Source>, more: seq<Source>, path: Path)
    requires FirstWith(sources, path).Some?
    ensures FirstWith(sources + more, path) == FirstWith(sources, path)
  {
    if !sources[0].Exists(path) {
      assert (sources + more)[1..] == sources[1..] + more;
      LaterSourcesIgnored(sources[1..], more, path);
    }
  }

  /** The list after `std::erase(sources, source)`. */
  function Erased(sources: seq<Source>, source: Source): (r: seq<Source>)
    ensures |r| <= |sources|
  {
    if |sources| == 0 then []
    else (if sources[0] == source then [] else [sources[0]]) + Erased(sources[1..], source)
  }

  /** Erasing removes every occurrence of the source and keeps every other
      source as often as it was registered. */
  lemma {:induction false} ErasedCounts(a: seq<Source>, source: Source)
    ensures source !in Erased(a, source)
    ensures forall s :: s != source ==> multiset(Erased(a, source))[s] == multiset(a)[s]
  {
    if |a| > 0 {
      ErasedCounts(a[1..], source);
      assert a == [a[0]] + a[1..];
    }
  }

  /** Erasing keeps the order of the remaining sources: it works piece by
      piece. */
  lemma {:induction false} ErasedKeepsOrder(a: seq<Source>, b: seq<Source>, source: Source)
    ensures Erased(a + b, source) == Erased(a, source) + Erased(b, source)
  {
    if |a| > 0 {
      assert (a + b)[1..] == a[1..] + b;
      ErasedKeepsOrder(a[1..], b, source);
    } else {
      assert a + b == b;
    }
  }

  /** The union of the paths that the sources report as modified. */
  function ModifiedUnion(sources: seq<Source>): (r: set<Path>)
    ensures forall p :: p in r <==> exists j | 0 <= j < |sources| :: p in sources[j].modified
  {
    if |sources| == 0 then {}
    else
      var rest := ModifiedUnion(sources[..|sources| - 1]);
      assert forall p :: p in rest <==> exists j | 0 <= j < |sources| - 1 :: p in sources[j].modified by {
        forall p ensures p in rest <==> exists j | 0 <= j < |sources| - 1 :: p in sources[j].modified {
          if p in rest {
            var j :| 0 <= j < |sources| - 1 && p in sources[..|sources| - 1][j].modified;
            assert sources[j] == sources[..|sources| - 1][j];
          }
          if exists j | 0 <= j < |sources| - 1 :: p in sources[j].modified {
            var j :| 0 <= j < |sources| - 1 && p in sources[j].modified;
            assert sources[..|sources| - 1][j] == sources[j];
          }
        }
      }
      rest + sources[|sources| - 1].modified
  }

  /** The minimum time between two modification queries, in seconds. */
  const CheckInterval: real := 1.0

  class Loader {
    var sources: seq<Source>
    var modifiedFiles: set<Path>
    /** `m_lastModifiedFilesCheck`, in seconds of the clock; the clock is an
        input of `Tick`. */
    var lastModifiedFilesCheck: real

    constructor ()
      ensures sources == [] && modifiedFiles == {} && lastModifiedFilesCheck == 0.0
    {
      sources, modifiedFiles, lastModifiedFilesCheck := [], {}, 0.0;
    }

    /** `load(outBuffer, path)`: the answer of the first source that has the
        path; `ReadError`, with the buffer untouched, when none has it. */
    method Load(outBuffer: ByteBuffer, path: Path) returns (status: St.Status, outBuffer': ByteBuffer)
      ensures FirstWith(sources, path).Some? ==>
                (status, outBuffer') == sources[FirstWith(sources, path).value].files[path]
      ensures FirstWith(sources, path).None? ==> status == St.FromCode(St.ReadError) && outBuffer' == outBuffer
    {
      var k := 0;
      while k < |sources|
        invariant 0 <= k <= |sources|
        invariant forall j | 0 <= j < k :: !sources[j].Exists(path)
      {
        if sources[k].Exists(path) {
          var r := sources[k].files[path];
          return r.0, r.1;
        }
        k := k + 1;
      }
      return St.FromCode(St.ReadError), outBuffer;
    }

    /** `exists(path)`: whether some source has the path. */
    method Exists(path: Path) returns (b: bool)
      ensures b <==> exists j | 0 <= j < |sources| :: sources[j].Exists(path)
      ensures b <==> FirstWith(sources, path).Some?
    {
      for k := 0 to |sources|
        invariant forall j | 0 <= j < k :: !sources[j].Exists(path)
      {
        if sources[k].Exists(path) {
          return true;
        }
      }
      return false;
    }

    /** `addSource`: the source goes to the end of the list (the reference
        type excludes the null pointer the source asserts against). */
    method AddSource(source: Source)
      modifies this
      ensures sources == old(sources) + [source]
      ensures modifiedFiles == old(modifiedFiles) && lastModifiedFilesCheck == old(lastModifiedFilesCheck)
    {
      sources := sources + [source];
    }

    /** `removeSource`: every occurrence of the source is erased. */
    method RemoveSource(source: Source)
      modifies this
      ensures sources == Erased(old(sources), source)
      ensures modifiedFiles == old(modifiedFiles) && lastModifiedFilesCheck == old(lastModifiedFilesCheck)
    {
      sources := Erased(sources, source);
    }

    /** `clearSources`. */
    method ClearSources()
      modifies this
      ensures sources == []
      ensures modifiedFiles == old(modifiedFiles) && lastModifiedFilesCheck == old(lastModifiedFilesCheck)
    {
      sources := [];
    }

    /** `tick()` at clock time `now`: the modified set is emptied; if more
        than a second has passed since the last query, the time is recorded
        and the set becomes the union of what the sources report. */
    method Tick(now: real)
      modifies this
      ensures sources == old(sources)
      ensures now - old(lastModifiedFilesCheck) > CheckInterval ==>
                lastModifiedFilesCheck == now && modifiedFiles == ModifiedUnion(sources)
      ensures now - old(lastModifiedFilesCheck) <= CheckInterval ==>
                lastModifiedFilesCheck == old(lastModifiedFilesCheck) && modifiedFiles == {}
    {
      modifiedFiles := {};
      if now - lastModifiedFilesCheck > CheckInterval {
        lastModifiedFilesCheck := now;
        var all := sources;
        for k := 0 to |all|
          invariant sources == all && lastModifiedFilesCheck == now
          invariant modifiedFiles == ModifiedUnion(all[..k])
        {
          assert all[..k + 1][..k] == all[..k];
          modifiedFiles := modifiedFiles + all[k].modified;
        }
        assert all[..|all|] == all;
      }
    }
  }
}
