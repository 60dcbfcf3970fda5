/** The `User` record of the user-management portal: construction validates the
    email, username and department whenever they are supplied, and `update` validates
    the same fields, assigns every supplied attribute and commits, rolling back on a
    failure. */
module UserModel {
  import opened Wrappers
  import opened UserValidation

  /** What `__init__` and `update` raise: the guard's `ValueError`, the `TypeError`
      SQLAlchemy's declarative constructor raises for a keyword that is not an
      attribute of the class, or a failed commit. */
  datatype ModelError = ValueError(message: string) | InvalidKeyword(key: string) | DatabaseError

  /** The mapped columns of `User`, the keywords the declarative constructor
      accepts. */
  const Columns: set<string> :=
    {"id", "email", "username", "full_name", "department", "hashed_password", "created_at", "updated_at"}

  /** `str(e)` for each error. */
  function Describe(e: ModelError): string {
    match e
    case ValueError(message) => message
    case InvalidKeyword(key) => "'" + key + "' is an invalid keyword argument for User"
    case DatabaseError => "database error"
  }

  const InvalidEmail := "Invalid email format"
  const InvalidUsername := "Invalid username format"

  /** The guard `__init__` and `update` share: a key that is present is validated even
      when its value is empty or `None`; the first failing field, in the order email,
      username, department, names the error. */
  function CheckFields(kwargs: map<string, Value>): Option<string> {
    if "email" in kwargs && !ValidateEmail(kwargs["email"]) then Some(InvalidEmail)
    else if "username" in kwargs && !ValidateUsername(kwargs["username"]) then Some(InvalidUsername)
    else if "department" in kwargs && !ValidateDepartment(kwargs["department"]) then Some(DepartmentDetail)
    else None
  }

  /** Every supplied email, username and department is valid. */
  predicate SuppliedValid(kwargs: map<string, Value>) {
    ("email" in kwargs ==> ValidateEmail(kwargs["email"]))
    && ("username" in kwargs ==> ValidateUsername(kwargs["username"]))
    && ("department" in kwargs ==> ValidateDepartment(kwargs["department"]))
  }

  /** The guard passes exactly when every supplied field is valid, and a failure names
      the first invalid field. */
  lemma CheckFieldsSpec(kwargs: map<string, Value>)
    ensures CheckFields(kwargs).None? <==> SuppliedValid(kwargs)
    ensures "email" in kwargs && !ValidateEmail(kwargs["email"]) ==> CheckFields(kwargs) == Some(InvalidEmail)
    ensures CheckFields(kwargs) == Some(DepartmentDetail) ==>
              "department" in kwargs && !ValidateDepartment(kwargs["department"])
  {
  }

  /** The constructor's guard is stricter than the decorator's: whatever it accepts the
      decorator accepts, while an empty email passes the decorator and not the guard. */
  lemma StricterThanDecorator(kwargs: map<string, Value>)
    ensures CheckFields(kwargs).None? ==> FieldsPass(kwargs)
    ensures FieldsPass(map["email" := Str("")]) && CheckFields(map["email" := Str("")]).Some?
  {
    var empty := map["email" := Str("")];
    assert !MatchesEmail("") && !Truthy(Arg(empty, "email"));
  }

  /** Assigning the attributes of two valid keyword sets, one after the other, leaves a
      valid set: a successful update keeps a valid user valid. */
  lemma ValidMerge(attrs: map<string, Value>, kwargs: map<string, Value>)
    requires SuppliedValid(attrs) && SuppliedValid(kwargs)
    ensures SuppliedValid(attrs + kwargs)
  {
  }

  /** The body of `User.create` as the decorator sees it: the constructor's
      `ValueError`, its `TypeError` for a keyword that is not a column and a failed
      commit are errors that are not HTTP errors. The decorator replaces their text by
      its own detail, so the `TypeError` carries a fixed one here. */
  function CreateHandler(kwargs: map<string, Value>, commitSucceeds: bool): Result<map<string, Value>, Raised> {
    match CheckFields(kwargs)
    case Some(message) => Err(OtherException(message))
    case None =>
      if !(kwargs.Keys <= Columns) then Err(OtherException("invalid keyword argument for User"))
      else if commitSucceeds then Ok(kwargs) else Err(OtherException("commit failed"))
  }

  /** A user row: its attributes by name. */
  class User {
    var attrs: map<string, Value>

    /** Every email, username and department the user holds is valid. */
    predicate Valid()
      reads this
    {
      SuppliedValid(attrs)
    }

    constructor FromValid(kwargs: map<string, Value>)
      requires CheckFields(kwargs).None?
      ensures attrs == kwargs
      ensures Valid()
    {
      attrs := kwargs;
      CheckFieldsSpec(kwargs);
    }

    /** `User(**kwargs)`: raises `ValueError` naming the first invalid supplied field;
        once the guard passes, `super().__init__` raises `TypeError` for a keyword
        that is not a column; otherwise a user holding exactly the supplied
        attributes. */
    static method New(kwargs: map<string, Value>) returns (r: Result<User, ModelError>)
      ensures r.Ok? <==> CheckFields(kwargs).None? && kwargs.Keys <= Columns
      ensures CheckFields(kwargs).Some? ==> r == Err(ValueError(CheckFields(kwargs).value))
      ensures CheckFields(kwargs).None? && !(kwargs.Keys <= Columns) ==>
                r.Err? && r.error.InvalidKeyword? && r.error.key in kwargs && r.error.key !in Columns
      ensures r.Ok? ==> fresh(r.value) && r.value.attrs == kwargs && r.value.Valid()
    {
      var failure := CheckFields(kwargs);
      if failure.Some? {
        return Err(ValueError(failure.value));
      }
      if !(kwargs.Keys <= Columns) {
        var key :| key in kwargs && key !in Columns;
        return Err(InvalidKeyword(key));
      }
      var user := new User.FromValid(kwargs);
      return Ok(user);
    }

    /** `User.create(db, **kwargs)`, a class method wrapped in `validate_user_data`: a
        truthy field that fails is a 400 before anything else runs; a `ValueError`
        from the constructor or a failed commit is rolled back and re-raised, the
        constructor's `TypeError` for a keyword that is not a column escapes both
        `except` clauses, and the decorator turns each into a 500. */
    static method Create(kwargs: map<string, Value>, commitSucceeds: bool) returns (r: Result<User, Raised>)
      ensures r.Ok? <==> SuppliedValid(kwargs) && kwargs.Keys <= Columns && commitSucceeds
      ensures !FieldsPass(kwargs) ==> r.Err? && r.error.HttpException? && r.error.status == 400
      ensures FieldsPass(kwargs) && !(SuppliedValid(kwargs) && kwargs.Keys <= Columns && commitSucceeds) ==>
                r == Err(HttpException(500, InternalDetail))
      ensures r.Ok? ==> fresh(r.value) && r.value.attrs == kwargs && r.value.Valid()
    {
      var outcome := ValidateUserData(kwargs, (kw: map<string, Value>) => CreateHandler(kw, commitSucceeds));
      DecoratorOutcome(kwargs, (kw: map<string, Value>) => CreateHandler(kw, commitSucceeds));
      CheckFieldsSpec(kwargs);
      StricterThanDecorator(kwargs);
      if outcome.Err? {
        return Err(outcome.error);
      }
      var user := new User.FromValid(kwargs);
      return Ok(user);
    }

    /** `user.update(db, **kwargs)`: when a supplied field is invalid nothing changes and
        `ValueError` is raised; otherwise every supplied key is assigned and the session
        commits. A failed commit rolls back, and the user reads its committed
        attributes again. */
    method Update(kwargs: map<string, Value>, commitSucceeds: bool) returns (r: Result<(), ModelError>)
      modifies this
      ensures CheckFields(kwargs).Some? ==> r == Err(ValueError(CheckFields(kwargs).value)) && attrs == old(attrs)
      ensures CheckFields(kwargs).None? && !commitSucceeds ==> r == Err(DatabaseError) && attrs == old(attrs)
      ensures CheckFields(kwargs).None? && commitSucceeds ==> r == Ok(()) && attrs == old(attrs) + kwargs
      ensures old(Valid()) ==> Valid()
    {
      var failure := CheckFields(kwargs);
      if failure.Some? {
        return Err(ValueError(failure.value));
      }
      CheckFieldsSpec(kwargs);
      var committed := attrs;
      var pending := kwargs.Keys;
      while pending != {}
        invariant pending <= kwargs.Keys
        invariant attrs == committed + map k | k in kwargs.Keys - pending :: kwargs[k]
        decreases pending
      {
        var key :| key in pending;
        attrs := attrs[key := kwargs[key]];
        pending := pending - {key};
      }
      assert kwargs.Keys - pending == kwargs.Keys;
      assert (map k | k in kwargs.Keys :: kwargs[k]) == kwargs;
      if !commitSucceeds {
        attrs := committed;
        return Err(DatabaseError);
      }
      if SuppliedValid(committed) {
        ValidMerge(committed, kwargs);
      }
      return Ok(());
    }
  }

  /** A successful update changes exactly the supplied keys: each takes its supplied
      value and every other attribute keeps its value. */
  lemma UpdateChangesOnlySupplied(attrs: map<string, Value>, kwargs: map<string, Value>)
    ensures (attrs + kwargs).Keys == attrs.Keys + kwargs.Keys
    ensures forall k :: k in kwargs ==> (attrs + kwargs)[k] == kwargs[k]
    ensures forall k :: k in attrs && k !in kwargs ==> (attrs + kwargs)[k] == attrs[k]
  {
  }
}
