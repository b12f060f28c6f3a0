/** controllers/trainingPostController.js: a company creates, edits and
    withdraws its own posts while they are PENDING; anyone lists posts by
    status or looks one up. */
module TrainingPosts {
  import opened Text
  import opened Schema
  import opened EntityStore

  /** The request body of a create. */
  datatype PostInput = PostInput(title: string, duration: int, location: string, availableUntil: Time,
                                 description: Option<string>)

  /** The request body of an update; a field that is absent or falsy keeps its old value. */
  datatype PostPatch = PostPatch(title: Option<string>, duration: Option<int>, location: Option<string>,
                                 availableUntil: Option<Time>, description: Option<string>)

  /** The (company, title) unique index already holds this pair. */
  predicate TitleTaken(posts: map<Id, TrainingPost>, company: Id, title: string)
  {
    exists p :: p in posts && posts[p].company == company && posts[p].title == title
  }

  /** The post a create would insert, or the reason it is refused, with the
      guards in the order the controller checks them: role, company profile,
      duration, deadline strictly in the future, then the schema validators
      and the unique (company, title) index. */
  function CreationCheck(db: Db, caller: Caller, input: PostInput, now: Time): (r: Result<TrainingPost>)
    requires Valid(db)
    ensures caller.role != CompanyRole ==> r == Err(Forbidden)
    ensures caller.role == CompanyRole && CompanyOf(db.companies, caller.user).None? ==> r == Err(NotFound)
    ensures caller.role == CompanyRole && CompanyOf(db.companies, caller.user).Some? && !AllowedDuration(input.duration)
            ==> r == Err(BadRequest)
    ensures caller.role == CompanyRole && CompanyOf(db.companies, caller.user).Some? && input.availableUntil <= now
            ==> r == Err(BadRequest)
    ensures r.Ok? <==>
      && caller.role == CompanyRole && CompanyOf(db.companies, caller.user).Some?
      && AllowedDuration(input.duration) && input.availableUntil > now
      && Trim(input.title) != "" && input.location != ""
      && !TitleTaken(db.posts, CompanyOf(db.companies, caller.user).value, Trim(input.title))
    ensures r.Ok? ==>
      var post := r.value;
      && PostConforms(post) && ReviewRecorded(post) && post.company in db.companies
      && post.status == Pending && post.approvedBy.None? && post.approvedAt.None?
      && Some(post.company) == CompanyOf(db.companies, caller.user)
      && post.title == Trim(input.title) && post.duration == input.duration
      && post.location == input.location && post.availableUntil == input.availableUntil
      && post.description == TrimOption(input.description) && post.createdAt == now && post.updatedAt.None?
  {
    if caller.role != CompanyRole then Err(Forbidden)
    else match CompanyOf(db.companies, caller.user)
      case None => Err(NotFound)
      case Some(c) =>
        if !AllowedDuration(input.duration) then Err(BadRequest)
        else if input.availableUntil <= now then Err(BadRequest)
        else
          var post := NewPost(c, input.title, input.duration, input.location, input.availableUntil,
                              input.description, now);
          NewPostTrimmed(c, input.title, input.duration, input.location, input.availableUntil,
                         input.description, now);
          if !PostConforms(post) then Err(ValidationFailed)
          else if TitleTaken(db.posts, c, post.title) then Err(DuplicateKey)
          else Ok(post)
  }

  /** A create stores the checked post under a fresh id; a refused one changes nothing. */
  function CreateTrainingPost(db: Db, caller: Caller, input: PostInput, now: Time): (r: Outcome<(Id, TrainingPost)>)
    requires Valid(db)
    ensures Valid(r.db)
    ensures r.result.Err? ==> r.db == db && CreationCheck(db, caller, input, now).Err?
                              && r.result.error == CreationCheck(db, caller, input, now).error
    ensures r.result.Ok? <==> CreationCheck(db, caller, input, now).Ok?
    ensures r.result.Ok? ==>
      var (id, post) := r.result.value;
      && post == CreationCheck(db, caller, input, now).value
      && id !in db.posts && id == db.nextId
      && r.db == db.(posts := db.posts[id := post], nextId := id + 1)
  {
    match CreationCheck(db, caller, input, now)
    case Err(e) => Outcome(db, Err(e))
    case Ok(post) =>
      InsertPostKeepsValid(db, post);
      Outcome(db.(posts := db.posts[db.nextId := post], nextId := db.nextId + 1), Ok((db.nextId, post)))
  }

  /** The listing filter: every post without a status query, otherwise the
      posts whose status name equals the upper-cased query, and for APPROVED
      only those whose deadline is still ahead. */
  function GetAllPosts(db: Db, status: Option<string>, now: Time): (r: set<Id>)
    ensures r <= db.posts.Keys
    ensures !Provided(status) ==> r == db.posts.Keys
    ensures Provided(status) ==> forall p :: p in db.posts ==>
      (p in r <==> PostStatusName(db.posts[p].status) == ToUpper(status.value)
                   && (ToUpper(status.value) == "APPROVED" ==> db.posts[p].availableUntil > now))
  {
    if Provided(status) then
      var wanted := ToUpper(status.value);
      set p | p in db.posts && PostStatusName(db.posts[p].status) == wanted
                            && (wanted == "APPROVED" ==> db.posts[p].availableUntil > now)
    else db.posts.Keys
  }

  /** A single post, or 404. */
  function GetPost(db: Db, id: Id): (r: Result<TrainingPost>)
    ensures r.Ok? <==> id in db.posts
    ensures r.Ok? ==> r.value == db.posts[id]
    ensures r.Err? ==> r.error == NotFound
  {
    if id in db.posts then Ok(db.posts[id]) else Err(NotFound)
  }

  /** The post a successful update writes: each provided field replaces the
      stored one (title and description trimmed), the rest keep their values. */
  function Patched(post: TrainingPost, patch: PostPatch, now: Time): (r: TrainingPost)
    ensures r.company == post.company && r.status == post.status && r.createdAt == post.createdAt
    ensures r.approvedBy == post.approvedBy && r.approvedAt == post.approvedAt
    ensures r.updatedAt == Some(now)
    ensures Provided(patch.title) ==> r.title == Trim(patch.title.value)
    ensures ProvidedNumber(patch.duration) ==> r.duration == patch.duration.value
    ensures Provided(patch.location) ==> r.location == patch.location.value
    ensures patch.availableUntil.Some? ==> r.availableUntil == patch.availableUntil.value
    ensures Provided(patch.description) ==> r.description == Some(Trim(patch.description.value))
    ensures !Provided(patch.title) ==> r.title == post.title
    ensures !ProvidedNumber(patch.duration) ==> r.duration == post.duration
    ensures !Provided(patch.location) ==> r.location == post.location
    ensures patch.availableUntil.None? ==> r.availableUntil == post.availableUntil
    ensures !Provided(patch.description) ==> r.description == post.description
  {
    post.(
      title := if Provided(patch.title) then Trim(patch.title.value) else post.title,
      duration := if ProvidedNumber(patch.duration) then patch.duration.value else post.duration,
      location := if Provided(patch.location) then patch.location.value else post.location,
      availableUntil := if patch.availableUntil.Some? then patch.availableUntil.value else post.availableUntil,
      description := if Provided(patch.description) then Some(Trim(patch.description.value)) else post.description,
      updatedAt := Some(now))
  }

  /** Patching a conforming post, after the duration guard, yields a
      conforming post exactly when a provided title is not blank: every other
      field either keeps its stored value or is already checked. */
  lemma PatchConforms(post: TrainingPost, patch: PostPatch, now: Time)
    requires PostConforms(post)
    requires ProvidedNumber(patch.duration) ==> AllowedDuration(patch.duration.value)
    ensures PostConforms(Patched(post, patch, now)) <==> (Provided(patch.title) ==> Trim(patch.title.value) != "")
  {
    var p := Patched(post, patch, now);
    assert AllowedDuration(p.duration) && p.location != "";
    if Provided(patch.title) {
      TrimmedEnds(patch.title.value);
      assert Trimmed(p.title) && p.title == Trim(patch.title.value);
    } else {
      assert p.title == post.title;
    }
    if Provided(patch.description) {
      TrimmedEnds(patch.description.value);
      assert Trimmed(p.description.value);
    } else {
      assert p.description == post.description;
    }
  }

  /** The checks an update and a delete share: role, company profile, post
      exists, post owned by the caller's company, post still PENDING. */
  function OwnedPendingPost(db: Db, caller: Caller, id: Id): (r: Result<Id>)
    requires Valid(db)
    ensures caller.role != CompanyRole ==> r == Err(Forbidden)
    ensures caller.role == CompanyRole && CompanyOf(db.companies, caller.user).None? ==> r == Err(NotFound)
    ensures caller.role == CompanyRole && CompanyOf(db.companies, caller.user).Some? && id !in db.posts ==> r == Err(NotFound)
    ensures caller.role == CompanyRole && CompanyOf(db.companies, caller.user).Some? && id in db.posts
            && db.posts[id].company != CompanyOf(db.companies, caller.user).value
            ==> r == Err(Forbidden)
    ensures caller.role == CompanyRole && CompanyOf(db.companies, caller.user).Some? && id in db.posts
            && db.posts[id].company == CompanyOf(db.companies, caller.user).value && db.posts[id].status != Pending
            ==> r == Err(BadRequest)
    ensures r.Ok? <==> caller.role == CompanyRole && CompanyOf(db.companies, caller.user).Some? && id in db.posts
                       && db.posts[id].company == CompanyOf(db.companies, caller.user).value && db.posts[id].status == Pending
    ensures r.Ok? ==> r.value == CompanyOf(db.companies, caller.user).value
    ensures r.Err? && r.error == BadRequest ==> id in db.posts && db.posts[id].status != Pending
    ensures r.Err? ==> r.error in {Forbidden, NotFound, BadRequest}
  {
    if caller.role != CompanyRole then Err(Forbidden)
    else match CompanyOf(db.companies, caller.user)
      case None => Err(NotFound)
      case Some(c) =>
        if id !in db.posts then Err(NotFound)
        else if db.posts[id].company != c then Err(Forbidden)
        else if db.posts[id].status != Pending then Err(BadRequest)
        else Ok(c)
  }

  /** A partial update of a pending post owned by the caller. A provided
      duration must be 6 or 8 and a provided deadline must be in the future;
      the updated document is validated and must keep (company, title) unique. */
  function UpdatePost(db: Db, caller: Caller, id: Id, patch: PostPatch, now: Time): (r: Outcome<TrainingPost>)
    requires Valid(db)
    ensures Valid(r.db)
    ensures r.result.Err? ==> r.db == db
    ensures OwnedPendingPost(db, caller, id).Err? ==> r.result == Err(OwnedPendingPost(db, caller, id).error)
    ensures OwnedPendingPost(db, caller, id).Ok? && ProvidedNumber(patch.duration) && !AllowedDuration(patch.duration.value)
            ==> r.result == Err(BadRequest)
    ensures OwnedPendingPost(db, caller, id).Ok? && patch.availableUntil.Some? && patch.availableUntil.value <= now
            ==> r.result == Err(BadRequest)
    ensures OwnedPendingPost(db, caller, id).Ok?
            && (ProvidedNumber(patch.duration) ==> AllowedDuration(patch.duration.value))
            && (patch.availableUntil.Some? ==> patch.availableUntil.value > now)
            && Provided(patch.title) && Trim(patch.title.value) == ""
            ==> r.result == Err(ValidationFailed)
    ensures r.result.Ok? <==>
      && OwnedPendingPost(db, caller, id).Ok?
      && (ProvidedNumber(patch.duration) ==> AllowedDuration(patch.duration.value))
      && (patch.availableUntil.Some? ==> patch.availableUntil.value > now)
      && (Provided(patch.title) ==> Trim(patch.title.value) != "")
      && !TitleTaken(db.posts - {id}, db.posts[id].company, Patched(db.posts[id], patch, now).title)
    ensures r.result == Err(DuplicateKey) ==>
      && (Provided(patch.title) ==> Trim(patch.title.value) != "")
      && TitleTaken(db.posts - {id}, db.posts[id].company, Patched(db.posts[id], patch, now).title)
    ensures r.result.Ok? ==>
      && r.db == db.(posts := db.posts[id := r.result.value])
      && r.result.value == Patched(db.posts[id], patch, now)
      && r.result.value.status == Pending && r.result.value.company == db.posts[id].company
      && r.result.value.approvedBy == db.posts[id].approvedBy
    ensures r.result.Ok? ==>
      && (!Provided(patch.title) ==> r.result.value.title == db.posts[id].title)
      && (!ProvidedNumber(patch.duration) ==> r.result.value.duration == db.posts[id].duration)
      && (!Provided(patch.location) ==> r.result.value.location == db.posts[id].location)
      && (patch.availableUntil.None? ==> r.result.value.availableUntil == db.posts[id].availableUntil)
      && (!Provided(patch.description) ==> r.result.value.description == db.posts[id].description)
  {
    match OwnedPendingPost(db, caller, id)
    case Err(e) => Outcome(db, Err(e))
    case Ok(c) =>
      if ProvidedNumber(patch.duration) && !AllowedDuration(patch.duration.value) then Outcome(db, Err(BadRequest))
      else if patch.availableUntil.Some? && patch.availableUntil.value <= now then Outcome(db, Err(BadRequest))
      else
        var post := Patched(db.posts[id], patch, now);
        PatchConforms(db.posts[id], patch, now);
        if !PostConforms(post) then Outcome(db, Err(ValidationFailed))
        else if TitleTaken(db.posts - {id}, c, post.title) then Outcome(db, Err(DuplicateKey))
        else
          assert forall p :: p in db.posts && p != id ==> p in db.posts - {id};
          ReplacePostKeepsValid(db, id, post);
          Outcome(db.(posts := db.posts[id := post]), Ok(post))
  }

  /** Withdraws a pending post owned by the caller; nothing else changes. */
  function DeletePost(db: Db, caller: Caller, id: Id): (r: Outcome<()>)
    requires Valid(db)
    ensures Valid(r.db)
    ensures r.result.Err? ==> r.db == db && OwnedPendingPost(db, caller, id).Err?
                              && r.result.error == OwnedPendingPost(db, caller, id).error
    ensures r.result.Ok? <==> OwnedPendingPost(db, caller, id).Ok?
    ensures r.result.Ok? ==> r.db == db.(posts := db.posts - {id}) && id in db.posts && id !in r.db.posts
  {
    match OwnedPendingPost(db, caller, id)
    case Err(e) => Outcome(db, Err(e))
    case Ok(_) =>
      RemovePostKeepsValid(db, id);
      Outcome(db.(posts := db.posts - {id}), Ok(()))
  }
}
