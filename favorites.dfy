/** The favourites store: named searches, saved by upsert into a name-keyed map. */
module Favorites {
  import opened Wrappers

  /** A saved search: the search term and the category name. */
  datatype SearchQuery = SearchQuery(search: string, category: string)

  /** `favs` with `query` stored under `name`: the one entry is added or
      replaced, every other entry is kept. */
  function Upsert(favs: map<string, SearchQuery>, name: string, query: SearchQuery): (r: map<string, SearchQuery>)
    ensures r.Keys == favs.Keys + {name}
    ensures name in r && r[name] == query
    ensures forall n :: n in favs && n != name ==> r[n] == favs[n]
  {
    favs[name := query]
  }

  /** A second save under a name replaces the first: last write wins, no duplicate entry. */
  lemma UpsertLastWriteWins(favs: map<string, SearchQuery>, name: string, q1: SearchQuery, q2: SearchQuery)
    ensures Upsert(Upsert(favs, name, q1), name, q2) == Upsert(favs, name, q2)
  {
  }

  /** The favourites file. `None` is the state in which it does not exist yet. */
  class FavoritesStore {
    var file: Option<map<string, SearchQuery>>

    constructor (initial: Option<map<string, SearchQuery>>)
      ensures file == initial
    {
      file := initial;
    }

    /** The saved favourites; none when nothing has been saved. */
    function Load(): (favs: map<string, SearchQuery>)
      reads this
      ensures file.None? ==> favs == map[]
      ensures file.Some? ==> favs == file.value
    {
      file.GetOr(map[])
    }

    /** Loads the favourites, stores `query` under `name` and writes them all back. */
    method SaveFavorite(name: string, query: SearchQuery)
      modifies this
      ensures file.Some?
      ensures Load() == Upsert(old(Load()), name, query)
    {
      var favs := Load();
      favs := favs[name := query];
      file := Some(favs);
    }
  }
}
