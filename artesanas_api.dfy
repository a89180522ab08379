/** Normalisation of the content API's records into artesanas, and the
    module-level cache in front of the fetch. */
module ArtesanasApi {
  import opened Wrappers
  import opened Sequences
  import opened Text
  import opened Artesanas

  /** The custom fields block of an API record. */
  datatype AcfBase = AcfBase(
    email: string,
    region: string,
    comuna: string,
    telefono: string,
    disciplina: string,
    historiaYVivencia: string,
    motivacionParticipacion: string,
    imagenDePerfil: string,
    imagenesTrabajo1: string,
    imagenesTrabajo2: string)

  /** An API record; `title` is `title.rendered`, and `acf` may be missing. */
  datatype ArtesanaApi = ArtesanaApi(id: nat, title: string, acf: Option<AcfBase>)

  const NORTH_KEYWORDS: seq<string> :=
    ["arica", "tarapacá", "antofagasta", "atacama", "coquimbo", "valparaíso", "norte"]
  const CENTRE_KEYWORDS: seq<string> :=
    ["metropolitana", "maule", "ñuble", "biobío", "araucanía", "centro"]
  const SOUTH_KEYWORDS: seq<string> :=
    ["los lagos", "los ríos", "aysén", "magallanes", "sur"]

  predicate MentionsAny(s: string, keywords: seq<string>) {
    exists i | 0 <= i < |keywords| :: Contains(s, keywords[i])
  }

  /** `mapRegionFromApi`: the lower-cased name is tested against the north
      keywords, then the centre ones, then the south ones; a name matching
      none counts as centre. `Insular` is never produced. */
  function MapRegionFromApi(apiRegion: string): (r: Region)
    ensures r != Insular
    ensures r == Norte <==> MentionsAny(Lower(apiRegion), NORTH_KEYWORDS)
    ensures r == Sur <==>
      !MentionsAny(Lower(apiRegion), NORTH_KEYWORDS) &&
      !MentionsAny(Lower(apiRegion), CENTRE_KEYWORDS) &&
      MentionsAny(Lower(apiRegion), SOUTH_KEYWORDS)
  {
    var region := Lower(apiRegion);
    if MentionsAny(region, NORTH_KEYWORDS) then Norte
    else if MentionsAny(region, CENTRE_KEYWORDS) then Centro
    else if MentionsAny(region, SOUTH_KEYWORDS) then Sur
    else Centro
  }

  /** The classification ignores letter case: a name, its upper-cased and its
      lower-cased forms all map to the same region. */
  lemma MapRegionIgnoresCase(apiRegion: string)
    ensures MapRegionFromApi(Upper(apiRegion)) == MapRegionFromApi(apiRegion)
    ensures MapRegionFromApi(Lower(apiRegion)) == MapRegionFromApi(apiRegion)
  {
    LowerOfUpper(apiRegion);
    LowerIdempotent(apiRegion);
  }

  /** The north group is tried first: a name mentioning both "norte" and
      "sur" is classified as north. */
  lemma NorthWinsOverSouth(apiRegion: string)
    requires Contains(Lower(apiRegion), "norte") && Contains(Lower(apiRegion), "sur")
    ensures MapRegionFromApi(apiRegion) == Norte
  {
    assert NORTH_KEYWORDS[6] == "norte";
  }

  /** A name mentioning no keyword of any group falls back to centre. */
  lemma UnknownRegionIsCentro(apiRegion: string)
    requires !MentionsAny(Lower(apiRegion), NORTH_KEYWORDS)
    requires !MentionsAny(Lower(apiRegion), CENTRE_KEYWORDS)
    requires !MentionsAny(Lower(apiRegion), SOUTH_KEYWORDS)
    ensures MapRegionFromApi(apiRegion) == Centro
  {
  }

  /** `transformArtesanaFromApi`. Reading the fields of a record without
      `acf` throws a TypeError in the source; here that is `None`. The
      position is the random draw the source makes, passed in. */
  function TransformArtesanaFromApi(api: ArtesanaApi, posicion: Posicion): (r: Option<Artesana>)
    ensures r.None? <==> api.acf.None?
    ensures r.Some? ==>
      var a := r.value;
      var acf := api.acf.value;
      && a.id == NatToString(api.id)
      && ParseNat(a.id) == Some(api.id)
      && a.nombre == api.title
      && a.disciplina == acf.disciplina
      && a.region == MapRegionFromApi(acf.region)
      && a.posicion == posicion
      // the trailing `|| ''` never changes the outcome
      && a.biografia == (if acf.historiaYVivencia != "" then acf.historiaYVivencia else acf.motivacionParticipacion)
      && (a.imagenUrl.None? <==> acf.imagenDePerfil == "")
      && (a.imagenUrl.Some? ==> a.imagenUrl.value == acf.imagenDePerfil)
      && (a.imagenesTrabajo.None? <==> acf.imagenesTrabajo1 == "" && acf.imagenesTrabajo2 == "")
      && (a.imagenesTrabajo.Some? ==>
            var imgs := a.imagenesTrabajo.value;
            && 1 <= |imgs| <= 2
            && IsSubsequence(imgs, [acf.imagenesTrabajo1, acf.imagenesTrabajo2])
            && (forall k :: 0 <= k < |imgs| ==> imgs[k] != "")
            && (acf.imagenesTrabajo1 != "" ==> acf.imagenesTrabajo1 in imgs)
            && (acf.imagenesTrabajo2 != "" ==> acf.imagenesTrabajo2 in imgs)
            && imgs == (if acf.imagenesTrabajo1 != "" then [acf.imagenesTrabajo1] else []) +
                       (if acf.imagenesTrabajo2 != "" then [acf.imagenesTrabajo2] else []))
  {
    match api.acf
    case None => None
    case Some(acf) =>
      var imagenesTrabajo := WorkImages(acf.imagenesTrabajo1, acf.imagenesTrabajo2);
      ParseNatToString(api.id);
      Some(Artesana(
        id := NatToString(api.id),
        nombre := api.title,
        disciplina := acf.disciplina,
        region := MapRegionFromApi(acf.region),
        biografia :=
          if acf.historiaYVivencia != "" then acf.historiaYVivencia
          else if acf.motivacionParticipacion != "" then acf.motivacionParticipacion
          else "",
        imagenUrl := if acf.imagenDePerfil != "" then Some(acf.imagenDePerfil) else None,
        imagenesTrabajo := if |imagenesTrabajo| > 0 then Some(imagenesTrabajo) else None,
        posicion := posicion))
  }

  /** The work images of a record: the non-empty of its two fields, first
      field first (the `filter` in `transformArtesanaFromApi`). */
  function WorkImages(t1: string, t2: string): (r: seq<string>)
    ensures r == (if t1 != "" then [t1] else []) + (if t2 != "" then [t2] else [])
    ensures |r| <= 2 && (r == [] <==> t1 == "" && t2 == "")
    ensures IsSubsequence(r, [t1, t2])
    ensures forall k :: 0 <= k < |r| ==> r[k] != ""
    ensures t1 != "" ==> t1 in r
    ensures t2 != "" ==> t2 in r
  {
    var nonEmpty := (s: string) => s != "";
    assert [t2][1..] == [];
    assert Filter([t2], nonEmpty) == if t2 != "" then [t2] else [];
    assert [t1, t2][1..] == [t2];
    assert Filter([t1, t2], nonEmpty) == (if t1 != "" then [t1] else []) + Filter([t2], nonEmpty);
    Filter([t1, t2], nonEmpty)
  }

  /** The records `transformArtesanasFromApi` keeps: with `acf` and a
      non-empty rendered title. */
  predicate IsUsable(api: ArtesanaApi) {
    api.acf.Some? && api.title != ""
  }

  /** The positions of the usable records, in increasing order. */
  function UsableIndices(apis: seq<ArtesanaApi>): (r: seq<nat>)
    ensures |r| <= |apis|
    ensures forall k :: 0 <= k < |r| ==> r[k] < |apis| && IsUsable(apis[r[k]])
    ensures forall k, l :: 0 <= k < l < |r| ==> r[k] < r[l]
    ensures forall i :: 0 <= i < |apis| && IsUsable(apis[i]) ==> i in r
  {
    if apis == [] then []
    else
      var n := |apis| - 1;
      var prev := UsableIndices(apis[..n]);
      if IsUsable(apis[n]) then prev + [n] else prev
  }

  /** `transformArtesanasFromApi`: the usable records, in order, each
      transformed; the others are dropped. `positions[i]` is the position
      drawn for record `i`. */
  function TransformArtesanasFromApi(apis: seq<ArtesanaApi>, positions: seq<Posicion>): (r: seq<Artesana>)
    requires |positions| == |apis|
    ensures |r| == |UsableIndices(apis)| <= |apis|
    ensures forall k :: 0 <= k < |r| ==>
      var i := UsableIndices(apis)[k];
      TransformArtesanaFromApi(apis[i], positions[i]) == Some(r[k])
  {
    if apis == [] then []
    else
      var n := |apis| - 1;
      var prev := TransformArtesanasFromApi(apis[..n], positions[..n]);
      var prevIndices := UsableIndices(apis[..n]);
      var indices := UsableIndices(apis);
      var r := if IsUsable(apis[n]) then prev + [TransformArtesanaFromApi(apis[n], positions[n]).value] else prev;
      assert indices == if IsUsable(apis[n]) then prevIndices + [n] else prevIndices;
      assert forall k :: 0 <= k < |r| ==> TransformArtesanaFromApi(apis[indices[k]], positions[indices[k]]) == Some(r[k]) by {
        forall k | 0 <= k < |r|
          ensures TransformArtesanaFromApi(apis[indices[k]], positions[indices[k]]) == Some(r[k])
        {
          if k < |prev| {
            var i := prevIndices[k];
            assert apis[..n][i] == apis[i] && positions[..n][i] == positions[i];
          }
        }
      }
      r
  }

  const CACHE_KEY := "artesanas"
  /** Five minutes, in milliseconds. */
  const CACHE_DURATION := 5 * 60 * 1000

  datatype CacheEntry = CacheEntry(data: seq<Artesana>, timestamp: int)

  /** What a cache lookup at time `now` serves without fetching, if anything. */
  function CachedValue(entries: map<string, CacheEntry>, now: int): Option<seq<Artesana>> {
    if CACHE_KEY in entries && now - entries[CACHE_KEY].timestamp < CACHE_DURATION
    then Some(entries[CACHE_KEY].data)
    else None
  }

  /** An entry stored at `storedAt` is served exactly while less than
      `CACHE_DURATION` has passed since then. */
  lemma StoredEntryServedUntilExpiry(entries: map<string, CacheEntry>, data: seq<Artesana>, storedAt: int, now: int)
    ensures CachedValue(entries[CACHE_KEY := CacheEntry(data, storedAt)], now) ==
      if now - storedAt < CACHE_DURATION then Some(data) else None
  {
  }

  /** After `clearArtesanasCache` the next lookup misses. */
  lemma ClearedCacheMisses(entries: map<string, CacheEntry>, now: int)
    ensures CachedValue(entries - {CACHE_KEY}, now) == None
  {
  }

  /** The module-level `cache` map. */
  class ArtesanasCache {
    var entries: map<string, CacheEntry>

    constructor ()
      ensures entries == map[]
    {
      entries := map[];
    }

    /** `getCachedArtesanas`. The clock is read twice in the source, before
        the lookup (`now`) and after the fetch (`storedAt`); `fetched` is what
        the fetch would resolve with, and is used only on a miss. */
    method GetCachedArtesanas(now: int, fetched: seq<Artesana>, storedAt: int) returns (data: seq<Artesana>)
      modifies this
      ensures CachedValue(old(entries), now).Some? ==>
        data == CachedValue(old(entries), now).value && entries == old(entries)
      ensures CachedValue(old(entries), now).None? ==>
        data == fetched && entries == old(entries)[CACHE_KEY := CacheEntry(fetched, storedAt)]
    {
      if CACHE_KEY in entries && now - entries[CACHE_KEY].timestamp < CACHE_DURATION {
        return entries[CACHE_KEY].data;
      }
      data := fetched;
      entries := entries[CACHE_KEY := CacheEntry(data, storedAt)];
    }

    /** `clearArtesanasCache`. */
    method ClearArtesanasCache()
      modifies this
      ensures entries == old(entries) - {CACHE_KEY}
    {
      entries := entries - {CACHE_KEY};
    }
  }
}
