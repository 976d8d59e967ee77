/**
 * The movies table behind crud/movie/repository/movie_repository.js, held as a map from
 * id to row. `title`, `description`, `type` and `trailer_link` are NOT NULL, and all but
 * `description` (a `text` column) are `varchar(255)`.
 */
module MovieRepository {
  import opened Values
  import opened Tables

  /** A row of the movies table; `movieType` is the `type` column. */
  datatype MovieRow = MovieRow(
    id: nat,
    title: string,
    description: string,
    movieType: string,
    trailer_link: string,
    created_at: Option<int>)

  /** The plain object `create` hands to `save`. */
  datatype NewMovie = NewMovie(
    title: Option<string>,
    description: Option<string>,
    movieType: Option<string>,
    trailerLink: Option<string>,
    createdAt: int)

  /** A loaded row after `updateById` has merged into it; `update` reads `trailerLink`, not `trailer_link`. */
  datatype MovieObject = MovieObject(row: MovieRow, trailerLink: string)

  /** A row whose `varchar(255)` columns hold at most 255 characters. */
  predicate Fits(r: MovieRow)
  {
    FitsVarchar(r.title) && FitsVarchar(r.movieType) && FitsVarchar(r.trailer_link)
  }

  /** The values of the INSERT are accepted: every NOT NULL column gets a value, and each fits its column. */
  predicate Insertable(m: NewMovie)
  {
    && m.title.Some? && m.description.Some? && m.movieType.Some? && m.trailerLink.Some?
    && FitsVarchar(m.title.value) && FitsVarchar(m.movieType.value) && FitsVarchar(m.trailerLink.value)
  }

  function Inserted(id: nat, m: NewMovie): (r: MovieRow)
    requires Insertable(m)
    ensures r.id == id && r.created_at == Some(m.createdAt)
    ensures Some(r.title) == m.title && Some(r.description) == m.description
    ensures Some(r.movieType) == m.movieType && Some(r.trailer_link) == m.trailerLink
    ensures Fits(r)
  {
    MovieRow(id, m.title.value, m.description.value, m.movieType.value, m.trailerLink.value, Some(m.createdAt))
  }

  /** The SET clause of `update`: title, description, type and trailer link; id and created_at stay. */
  function Written(stored: MovieRow, m: MovieObject): (r: MovieRow)
    ensures r.id == stored.id && r.created_at == stored.created_at
    ensures r.title == m.row.title && r.description == m.row.description
    ensures r.movieType == m.row.movieType && r.trailer_link == m.trailerLink
  {
    stored.(title := m.row.title, description := m.row.description, movieType := m.row.movieType, trailer_link := m.trailerLink)
  }

  class Repository {
    var rows: map<nat, MovieRow>
    var nextId: nat

    ghost predicate Valid()
      reads this
    {
      1 <= nextId <= MaxInt4 + 1 && forall k :: k in rows ==> 1 <= k < nextId && rows[k].id == k && Fits(rows[k])
    }

    constructor ()
      ensures Valid() && rows == map[] && nextId == 1
    {
      rows := map[];
      nextId := 1;
    }

    /** `findById(id)`: the row with that id, if any. */
    function FindById(id: nat): (r: Option<MovieRow>)
      reads this
      requires Valid()
      ensures r.Some? <==> id in rows
      ensures r.Some? ==> r.value == rows[id] && r.value.id == id
    {
      if id in rows then Some(rows[id]) else None
    }

    /** `findAll()`: every row once, in ascending id order. */
    function FindAll(): (rs: seq<MovieRow>)
      reads this
      requires Valid()
      ensures forall r :: r in rs <==> r in rows.Values
      ensures |rs| == |rows|
    {
      ScanAllValues(rows, nextId);
      ScanAllLength(rows, nextId);
      Scan(rows, 0, nextId)
    }

    /**
     * `save(movie)`: one INSERT. It fails once the id serial is exhausted, and when the
     * values are not insertable; a serial value is consumed whenever one is left.
     */
    method Save(m: NewMovie) returns (ok: bool)
      requires Valid()
      modifies this
      ensures Valid() && nextId == NextSerial(old(nextId))
      ensures ok <==> old(nextId) <= MaxInt4 && Insertable(m)
      ensures ok ==> rows == old(rows)[old(nextId) := Inserted(old(nextId), m)]
      ensures !ok ==> rows == old(rows)
    {
      ok := nextId <= MaxInt4 && Insertable(m);
      if ok {
        rows := rows[nextId := Inserted(nextId, m)];
      }
      nextId := NextSerial(nextId);
    }

    /**
     * `update(movie)`: rewrites the row with that id; an absent id changes nothing, and a
     * title, type or trailer link over 255 characters makes the statement fail.
     */
    method Update(m: MovieObject) returns (ok: bool)
      requires Valid()
      modifies this
      ensures Valid() && nextId == old(nextId)
      ensures ok <==> m.row.id !in old(rows) || Fits(Written(old(rows)[m.row.id], m))
      ensures ok && m.row.id in old(rows) ==> rows == old(rows)[m.row.id := Written(old(rows)[m.row.id], m)]
      ensures !(ok && m.row.id in old(rows)) ==> rows == old(rows)
    {
      ok := m.row.id !in rows || Fits(Written(rows[m.row.id], m));
      if ok && m.row.id in rows {
        rows := rows[m.row.id := Written(rows[m.row.id], m)];
      }
    }

    /** `deleteById(id)`: removes the row with that id, if any. */
    method DeleteById(id: nat)
      requires Valid()
      modifies this
      ensures Valid() && nextId == old(nextId)
      ensures rows == old(rows) - {id}
    {
      rows := rows - {id};
    }
  }
}
