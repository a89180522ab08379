/** The `useArtesanas` hook: the loaded list with its loading and error
    flags, the memoised two-criterion filter and the sorted list of distinct
    disciplinas. */
module UseArtesanas {
  import opened Wrappers
  import opened Sequences
  import opened StringOrder
  import opened Artesanas

  /** `filteredArtesanas(filters)`: exactly the artesanas matching every
      active selection, with their multiplicities, in their original order. */
  function FilteredArtesanas(artesanas: seq<Artesana>, f: Filters): (r: seq<Artesana>)
    ensures |r| <= |artesanas|
    ensures forall a :: a in r ==> Matches(a, f)
    ensures forall a :: multiset(r)[a] == if Matches(a, f) then multiset(artesanas)[a] else 0
    ensures IsSubsequence(r, artesanas)
  {
    Filter(artesanas, a => Matches(a, f))
  }

  /** With both selections null or empty the list comes back unchanged. */
  lemma InactiveFiltersKeepAll(artesanas: seq<Artesana>, f: Filters)
    requires !IsActive(f.disciplina) && !IsActive(f.region)
    ensures FilteredArtesanas(artesanas, f) == artesanas
  {
    FilterKeepsAll(artesanas, a => Matches(a, f));
  }

  /** Filtering an already filtered list with the same selections changes nothing. */
  lemma FilteredArtesanasIdempotent(artesanas: seq<Artesana>, f: Filters)
    ensures FilteredArtesanas(FilteredArtesanas(artesanas, f), f) == FilteredArtesanas(artesanas, f)
  {
    FilterIdempotent(artesanas, a => Matches(a, f));
  }

  /** `artesanas.map(a => a.disciplina)`. */
  function DisciplinaList(artesanas: seq<Artesana>): (r: seq<string>)
    ensures |r| == |artesanas|
    ensures forall i :: 0 <= i < |artesanas| ==> r[i] == artesanas[i].disciplina
  {
    seq(|artesanas|, i requires 0 <= i < |artesanas| => artesanas[i].disciplina)
  }

  /** `Array.from(new Set(disciplinas)).sort()`: every disciplina that occurs,
      each once, in ascending string order. */
  function Disciplinas(artesanas: seq<Artesana>): (r: seq<string>)
    ensures StrictlySorted(r)
    ensures forall d :: d in r <==> exists a :: a in artesanas && a.disciplina == d
  {
    var distinct := Dedup(DisciplinaList(artesanas));
    SortNoDuplicates(distinct);
    var r := Sort(distinct);
    SortedDistinct(r);
    forall d ensures d in r <==> d in distinct {
      assert d in r <==> d in multiset(r);
    }
    forall d ensures d in distinct <==> exists a :: a in artesanas && a.disciplina == d {
      if d in DisciplinaList(artesanas) {
        var i :| 0 <= i < |artesanas| && DisciplinaList(artesanas)[i] == d;
        assert artesanas[i] in artesanas;
      }
    }
    r
  }

  /** The list is determined by the set of disciplinas: any strictly sorted
      list of exactly those strings is the one the hook returns. */
  lemma DisciplinasDeterminedBySet(artesanas: seq<Artesana>, r: seq<string>)
    requires StrictlySorted(r)
    requires forall d :: d in r <==> exists a :: a in artesanas && a.disciplina == d
    ensures r == Disciplinas(artesanas)
  {
    StrictlySortedUnique(r, Disciplinas(artesanas));
  }

  const LOAD_ERROR := "Error al cargar las artesanas"

  /** The hook's state: `artesanas`, `loading` and `error`. */
  class ArtesanasState {
    var artesanas: seq<Artesana>
    var loading: bool
    var error: Option<string>

    /** The initial `useState` values: an empty list, loading, no error. */
    constructor ()
      ensures artesanas == [] && loading && error == None
    {
      artesanas := [];
      loading := true;
      error := None;
    }

    /** What `loadArtesanas` sets before it awaits the data. */
    method StartLoad()
      modifies this
      ensures loading && error == None
      ensures artesanas == old(artesanas)
    {
      loading := true;
      error := None;
    }

    /** What `loadArtesanas` sets once the awaited data settles: the data on
        success, the fixed message on failure, and never loading afterwards. */
    method FinishLoad(outcome: Result<seq<Artesana>, string>)
      modifies this
      ensures !loading
      ensures outcome.Success? ==> artesanas == outcome.value && error == old(error)
      ensures outcome.Failure? ==> artesanas == old(artesanas) && error == Some(LOAD_ERROR)
    {
      if outcome.Success? {
        artesanas := outcome.value;
      } else {
        error := Some(LOAD_ERROR);
      }
      loading := false;
    }

    /** `loadArtesanas` (and `refetch`), given what `getCachedArtesanas`
        resolves or rejects with. */
    method LoadArtesanas(outcome: Result<seq<Artesana>, string>)
      modifies this
      ensures !loading
      ensures outcome.Success? ==> artesanas == outcome.value && error == None
      ensures outcome.Failure? ==> artesanas == old(artesanas) && error == Some(LOAD_ERROR)
    {
      StartLoad();
      FinishLoad(outcome);
    }
  }
}
