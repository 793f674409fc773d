/** routes/colleges.js: list, get, create, update and delete colleges. */
module CollegeRoutes {
  import opened Wrappers
  import opened Schema
  import Sorting
  import Text

  /** `.sort({ name: 1 })` */
  predicate ByName(a: Doc<College>, b: Doc<College>) {
    Text.StrLe(a.val.name, b.val.name)
  }

  lemma ByNameIsTotalPreorder()
    ensures Sorting.TotalPreorder(ByName)
  {
    Sorting.ByStringKey((d: Doc<College>) => d.val.name, ByName);
  }

  /** GET /api/colleges: every college once, ascending by name. */
  function List(db: Store): (r: seq<Doc<College>>)
    ensures Sorting.Sorted(r, ByName)
    ensures forall d :: d in r <==> d.id in db.colleges && db.colleges[d.id] == d.val
    ensures DistinctIds(r)
  {
    ByNameIsTotalPreorder();
    Listing(db.colleges, db.clock, (c: College) => true, ByName)
  }

  /** GET /api/colleges/:id; a malformed id answers 404 like an absent one. */
  function Get(db: Store, id: string): (r: Result<Doc<College>>)
    ensures r.Ok? <==> ParseId(id).Oid? && ParseId(id).id in db.colleges
    ensures r.Ok? ==> r.value.id == ParseId(id).id && r.value.val == db.colleges[r.value.id]
    ensures r.Err? ==> r.error == NotFound(CollegeKind)
  {
    match ParseId(id)
    case Malformed => Err(NotFound(CollegeKind))
    case Oid(k) => if k in db.colleges then Ok(Doc(k, db.colleges[k])) else Err(NotFound(CollegeKind))
  }

  /** The body checks shared by POST and PUT: name and code must be non-empty. */
  function Checks(name: string, code: string): seq<(string, bool)> {
    [("name", name != ""), ("code", code != "")]
  }

  /** Some college other than `self` already has this name or this code. */
  predicate Taken(m: map<Id, College>, name: string, code: string, self: Option<Id>) {
    exists k :: k in m && Some(k) != self && (m[k].name == name || m[k].code == code)
  }

  /** POST /api/colleges */
  function Create(db: Store, name: string, code: string, location: Option<string>): (r: Reply<Doc<College>>)
    // a failed request leaves the store as it was
    ensures r.result.Err? ==> r.db == db
    // validation comes first and needs no lookup
    ensures name == "" || code == "" ==> r.result == Err(Invalid(FailedChecks(Checks(name, code))))
    // with valid fields, the only failure is a clash on name OR code
    ensures name != "" && code != "" ==>
      (r.result.Err? <==> exists k :: k in db.colleges && (db.colleges[k].name == name || db.colleges[k].code == code))
    ensures r.result.Err? ==> r.result.error.Invalid? || r.result.error == Conflict
    // success adds exactly one fresh college carrying the request's fields
    ensures r.result.Ok? ==>
      var d := r.result.value;
      && d.id !in db.colleges
      && d.val == College(name, code, location, db.clock)
      && r.db == db.(colleges := db.colleges[d.id := d.val], clock := r.db.clock)
      && r.db.clock > db.clock
  {
    var errors := FailedChecks(Checks(name, code));
    if errors != [] then Reply(db, Err(Invalid(errors)))
    else if Taken(db.colleges, name, code, None) then Reply(db, Err(Conflict))
    else
      var c := College(name, code, location, db.clock);
      Reply(db.(colleges := db.colleges[db.clock := c], clock := db.clock + 1), Ok(Doc(db.clock, c)))
  }

  /** PUT /api/colleges/:id */
  function Update(db: Store, id: string, name: string, code: string, location: Option<string>): (r: Reply<Doc<College>>)
    ensures r.result.Err? ==> r.db == db
    ensures name == "" || code == "" ==> r.result == Err(Invalid(FailedChecks(Checks(name, code))))
    // after validation: the target must exist ...
    ensures name != "" && code != "" && !(ParseId(id).Oid? && ParseId(id).id in db.colleges) ==>
      r.result == Err(NotFound(CollegeKind))
    // ... and the only other failure is a clash with a DIFFERENT college
    ensures name != "" && code != "" && ParseId(id).Oid? && ParseId(id).id in db.colleges ==>
      (r.result.Err? <==> Taken(db.colleges, name, code, Some(ParseId(id).id)))
    // success overwrites name, code and location of the target and nothing else
    ensures r.result.Ok? ==>
      var k := ParseId(id).id;
      && ParseId(id).Oid? && k in db.colleges
      && r.result.value == Doc(k, db.colleges[k].(name := name, code := code, location := location))
      && r.db == db.(colleges := db.colleges[k := r.result.value.val])
  {
    var errors := FailedChecks(Checks(name, code));
    if errors != [] then Reply(db, Err(Invalid(errors)))
    else match ParseId(id)
      case Malformed => Reply(db, Err(NotFound(CollegeKind)))
      case Oid(k) =>
        if k !in db.colleges then Reply(db, Err(NotFound(CollegeKind)))
        else if Taken(db.colleges, name, code, Some(k)) then Reply(db, Err(Conflict))
        else
          var c := db.colleges[k].(name := name, code := code, location := location);
          Reply(db.(colleges := db.colleges[k := c]), Ok(Doc(k, c)))
  }

  /** DELETE /api/colleges/:id: removes the college only; its courses stay. */
  function Delete(db: Store, id: string): (r: Reply<string>)
    ensures r.result.Ok? <==> ParseId(id).Oid? && ParseId(id).id in db.colleges
    ensures r.result.Err? ==> r.db == db && r.result.error == NotFound(CollegeKind)
    ensures r.result.Ok? ==> r.db == db.(colleges := db.colleges - {ParseId(id).id})
    ensures r.result.Ok? ==> |r.db.colleges| == |db.colleges| - 1
  {
    match ParseId(id)
    case Malformed => Reply(db, Err(NotFound(CollegeKind)))
    case Oid(k) =>
      if k !in db.colleges then Reply(db, Err(NotFound(CollegeKind)))
      else Reply(db.(colleges := db.colleges - {k}), Ok("College removed"))
  }

  /** Re-submitting a college's own name and code is not a conflict. */
  lemma UpdateKeepingOwnValues(db: Store, k: Id, location: Option<string>)
    requires Valid(db)
    requires k in db.colleges
    ensures Update(db, IdString(k), db.colleges[k].name, db.colleges[k].code, location).result.Ok?
  {
    ParseIdString(k);
  }

  /** A created college is then found by GET with the id it was given. */
  lemma CreateThenGet(db: Store, name: string, code: string, location: Option<string>)
    requires Create(db, name, code, location).result.Ok?
    ensures
      var r := Create(db, name, code, location);
      Get(r.db, IdString(r.result.value.id)) == Ok(r.result.value)
  {
    ParseIdString(Create(db, name, code, location).result.value.id);
  }

  /** Deleting a college can leave a course that refers to no college. */
  lemma DeleteOrphansCourses()
    ensures
      var db := Db(map[0 := College("Tech U", "TU", None, 0)],
                   map[1 := Course("CS", "CS1", 0, 4, 1)], map[], map[], map[], {}, 2);
      var r := Delete(db, "0");
      && r.result.Ok?
      && 1 in r.db.courses && r.db.courses[1].college !in r.db.colleges
  {
    var db := Db(map[0 := College("Tech U", "TU", None, 0)],
                 map[1 := Course("CS", "CS1", 0, 4, 1)], map[], map[], map[], {}, 2);
    ParseIdString(0);
    assert IdString(0) == "0";
  }

  /** A create keeps the unique indexes on name and code. */
  lemma CreateKeepsValid(db: Store, name: string, code: string, location: Option<string>)
    requires Valid(db)
    ensures Valid(Create(db, name, code, location).db)
  {
    var r := Create(db, name, code, location);
    if r.result.Ok? {
      PutCollegeKeepsValid(db, r.result.value.id, r.result.value.val, r.db.clock);
    }
  }

  /** An update keeps the unique indexes: the conflict check skips only the target. */
  lemma UpdateKeepsValid(db: Store, id: string, name: string, code: string, location: Option<string>)
    requires Valid(db)
    ensures Valid(Update(db, id, name, code, location).db)
  {
    var r := Update(db, id, name, code, location);
    if r.result.Ok? {
      PutCollegeKeepsValid(db, r.result.value.id, r.result.value.val, r.db.clock);
    }
  }

  /** A delete keeps the catalog invariant. */
  lemma DeleteKeepsValid(db: Store, id: string)
    requires Valid(db)
    ensures Valid(Delete(db, id).db)
  {
  }
}
