/**
 * crud/movie/controller/movie_controller.js: creating, reading, editing and deleting
 * movies. `updateById` merges request values into the loaded row field by field.
 */
module MovieController {
  import opened Values
  import opened Middleware
  import opened MovieRepository
  import opened Tables
  import UserRepository
  import DbMovieValidator

  /** The type list written out inside `updateById`. */
  const UpdateTypes: seq<string> := ["ACTION", "SPORT", "ADVENTURE", "ROMANTIC", "COMEDY", "DOCUMENTARY", "HISTORIC", "CARTOON", "THRILLER"]

  /** The list in `updateById` and the validator's `TYPES` are the same list, element for element. */
  lemma UpdateTypesAreTypes()
    ensures UpdateTypes == DbMovieValidator.TYPES
    ensures forall s :: s in UpdateTypes <==> DbMovieValidator.IsTypeValid(Some(s)).Accepted?
  {
    DbMovieValidator.TypesAreTheEnumeration();
  }

  /**
   * `create`, with `new Date()` given as `now`. There is no try/catch: an INSERT that
   * fails (a NULL in a NOT NULL column, a text over 255 characters, an exhausted id
   * serial) is an unhandled rejection, and no response is sent.
   */
  method Create(req: Request, repo: Repository, now: int) returns (reply: Reply<NewMovie>)
    requires repo.Valid()
    modifies repo
    ensures repo.Valid() && repo.nextId == NextSerial(old(repo.nextId))
    ensures var entity := NewMovie(TextField(req.body, "title"), TextField(req.body, "description"),
                                   TextField(req.body, "type"), TextField(req.body, "trailerLink"), now);
      var accepted := old(repo.nextId) <= MaxInt4 && Insertable(entity);
      && (accepted ==> repo.rows == old(repo.rows)[old(repo.nextId) := Inserted(old(repo.nextId), entity)]
                       && reply == Ok("Movie created successfully.", entity))
      && (!accepted ==> repo.rows == old(repo.rows) && reply == Unanswered)
  {
    var entity := NewMovie(TextField(req.body, "title"), TextField(req.body, "description"),
                           TextField(req.body, "type"), TextField(req.body, "trailerLink"), now);
    var ok := repo.Save(entity);
    if !ok {
      return Unanswered;
    }
    return Ok("Movie created successfully.", entity);
  }

  /** `findById`: the row under `:id`, which may be absent; a malformed id fails the query. */
  method FindById(req: Request, repo: Repository) returns (reply: Reply<Option<MovieRow>>)
    requires repo.Valid()
    ensures UserRepository.IdParam(req.id).None? ==> reply == ServerError()
    ensures UserRepository.IdParam(req.id).Some? ==>
      var id := UserRepository.IdParam(req.id).value;
      reply == Ok("Movie retrieved successfully.", if id in repo.rows then Some(repo.rows[id]) else None)
  {
    var id := UserRepository.IdParam(req.id);
    if id.None? {
      return ServerError();
    }
    return Ok("Movie retrieved successfully.", repo.FindById(id.value));
  }

  /** `findAll`: every movie, each once. */
  method FindAll(req: Request, repo: Repository) returns (reply: Reply<seq<MovieRow>>)
    requires repo.Valid()
    ensures reply.Json? && reply.status == 200 && reply.msg == "Movies retrieved successfully." && reply.payload.Some?
    ensures forall r :: r in reply.payload.value <==> r in repo.rows.Values
    ensures |reply.payload.value| == |repo.rows|
  {
    return Ok("Movies retrieved successfully.", repo.FindAll());
  }

  /** The row `updateById` writes: each field keeps its stored value unless a usable new one is supplied. */
  function Merged(r: MovieRow, body: Body): (s: MovieRow)
    ensures s.id == r.id && s.created_at == r.created_at
    ensures s.title == OrElseText(TextField(body, "title"), r.title)
    ensures s.description == OrElseText(TextField(body, "description"), r.description)
    ensures TextField(body, "type").Some? && TextField(body, "type").value in DbMovieValidator.TYPES ==> s.movieType == TextField(body, "type").value
    ensures !(TextField(body, "type").Some? && TextField(body, "type").value in DbMovieValidator.TYPES) ==> s.movieType == r.movieType
    ensures s.trailer_link == OrElseText(TextField(body, "trailerLink"), r.trailer_link)
    ensures Fits(r) ==> (Fits(s) <==>
      && (Present(TextField(body, "title")) ==> FitsVarchar(TextField(body, "title").value))
      && (Present(TextField(body, "trailerLink")) ==> FitsVarchar(TextField(body, "trailerLink").value)))
  {
    var t := TextField(body, "type");
    r.(title := OrElseText(TextField(body, "title"), r.title),
       description := OrElseText(TextField(body, "description"), r.description),
       movieType := if t.Some? && t.value in UpdateTypes then t.value else r.movieType,
       trailer_link := OrElseText(TextField(body, "trailerLink"), r.trailer_link))
  }

  /** A stored type from the list stays in the list: an update never writes an unlisted type. */
  lemma MergedKeepsTypeListed(r: MovieRow, body: Body)
    ensures r.movieType in DbMovieValidator.TYPES ==> Merged(r, body).movieType in DbMovieValidator.TYPES
    ensures Merged(r, body).movieType in DbMovieValidator.TYPES || Merged(r, body).movieType == r.movieType
  {
  }

  /** Applying the same edit twice writes the same row as applying it once. */
  lemma MergedIdempotent(r: MovieRow, body: Body)
    ensures Merged(Merged(r, body), body) == Merged(r, body)
  {
  }

  /**
   * `updateById`. A malformed id, an absent row (whose first property read throws) or a
   * title or trailer link over 255 characters (the awaited UPDATE rejects) ends in 500
   * with no write. The answered object keeps the stored `trailer_link` beside the new
   * `trailerLink`.
   */
  method UpdateById(req: Request, repo: Repository) returns (reply: Reply<MovieObject>)
    requires repo.Valid()
    modifies repo
    ensures repo.Valid() && repo.nextId == old(repo.nextId)
    ensures var id := UserRepository.IdParam(req.id);
      && (id.None? || id.value !in old(repo.rows) ==> reply == ServerError() && repo.rows == old(repo.rows))
      && (id.Some? && id.value in old(repo.rows) ==>
            var merged := Merged(old(repo.rows)[id.value], req.body);
            && (!Fits(merged) ==> reply == ServerError() && repo.rows == old(repo.rows))
            && (Fits(merged) ==>
                  && repo.rows == old(repo.rows)[id.value := merged]
                  && reply == Ok("Movie updated successfully.",
                                 MovieObject(merged.(trailer_link := old(repo.rows)[id.value].trailer_link), merged.trailer_link))))
  {
    var title, description := TextField(req.body, "title"), TextField(req.body, "description");
    var movieType, trailerLink := TextField(req.body, "type"), TextField(req.body, "trailerLink");
    var id := UserRepository.IdParam(req.id);
    if id.None? {
      return ServerError();
    }
    var found := repo.FindById(id.value);
    if found.None? {
      return ServerError();
    }
    var dto := found.value;
    dto := dto.(title := OrElseText(title, dto.title));
    dto := dto.(description := OrElseText(description, dto.description));
    if !(movieType.Some? && movieType.value in UpdateTypes) {
      dto := dto.(movieType := dto.movieType);
    } else {
      dto := dto.(movieType := movieType.value);
    }
    var entity := MovieObject(dto, OrElseText(trailerLink, dto.trailer_link));
    assert Written(found.value, entity) == Merged(found.value, req.body);
    var ok := repo.Update(entity);
    if !ok {
      return ServerError();
    }
    return Ok("Movie updated successfully.", entity);
  }

  /** `deleteById`: removes the row under `:id`; an absent row is still reported as deleted. */
  method DeleteById(req: Request, repo: Repository) returns (reply: Reply<()>)
    requires repo.Valid()
    modifies repo
    ensures repo.Valid() && repo.nextId == old(repo.nextId)
    ensures UserRepository.IdParam(req.id).None? ==> reply == ServerError() && repo.rows == old(repo.rows)
    ensures UserRepository.IdParam(req.id).Some? ==>
      && repo.rows == old(repo.rows) - {UserRepository.IdParam(req.id).value}
      && reply == Json(200, "Movie with ID " + req.id.value + " deleted successfully.", None)
  {
    var id := UserRepository.IdParam(req.id);
    if id.None? {
      return ServerError();
    }
    repo.DeleteById(id.value);
    return Json(200, "Movie with ID " + req.id.value + " deleted successfully.", None);
  }
}
