/**
 * The complaint document schema (backend/models/Complaint.js): the status
 * and category enums with their wire strings, the stored record, and the
 * validation and casting Mongoose applies when a document is created or
 * saved (required fields, enum membership, the `Open` default, the
 * upper-casing setter on `block`, and the sub-document cast of a comment).
 */
module ComplaintSchema {
  import opened Wrappers
  import opened Js
  import Text

  /** A date, in milliseconds since the epoch. */
  type Time = int

  // ------------------------------------------------------------------ status

  datatype Status = Open | InProgress | Resolved

  const StatusValues: seq<string> := ["Open", "In Progress", "Resolved"]

  function StatusWire(s: Status): string
  {
    match s
    case Open => "Open"
    case InProgress => "In Progress"
    case Resolved => "Resolved"
  }

  /** The status enum check: exactly the three wire strings are accepted. */
  function ParseStatus(w: string): (r: Option<Status>)
    ensures r.Some? <==> w in StatusValues
    ensures r.Some? ==> StatusWire(r.value) == w
  {
    if w == "Open" then Some(Open)
    else if w == "In Progress" then Some(InProgress)
    else if w == "Resolved" then Some(Resolved)
    else None
  }

  lemma StatusWireRoundTrip(s: Status)
    ensures ParseStatus(StatusWire(s)) == Some(s)
    ensures StatusWire(s) in StatusValues
  {
  }

  // ---------------------------------------------------------------- category

  datatype Category = Plumbing | Electricity | Cleanliness | Internet | Security | Other

  const CategoryValues: seq<string> :=
    ["plumbing", "electricity", "cleanliness", "internet", "security", "other"]

  function CategoryWire(c: Category): string
  {
    match c
    case Plumbing => "plumbing"
    case Electricity => "electricity"
    case Cleanliness => "cleanliness"
    case Internet => "internet"
    case Security => "security"
    case Other => "other"
  }

  /** The category enum check: exactly the six wire strings are accepted. */
  function ParseCategory(w: string): (r: Option<Category>)
    ensures r.Some? <==> w in CategoryValues
    ensures r.Some? ==> CategoryWire(r.value) == w
  {
    if w == "plumbing" then Some(Plumbing)
    else if w == "electricity" then Some(Electricity)
    else if w == "cleanliness" then Some(Cleanliness)
    else if w == "internet" then Some(Internet)
    else if w == "security" then Some(Security)
    else if w == "other" then Some(Other)
    else None
  }

  lemma CategoryWireRoundTrip(c: Category)
    ensures ParseCategory(CategoryWire(c)) == Some(c)
    ensures CategoryWire(c) in CategoryValues
  {
  }

  /** The enum spells the electrical category "electricity"; "electrical" fails it. */
  lemma ElectricalIsNotACategory()
    ensures ParseCategory("electrical") == None
    ensures ParseCategory("electricity") == Some(Electricity)
  {
  }

  // ----------------------------------------------------------------- records

  /** One entry of the `comments` array: `text`, `user`, `createdAt`. */
  datatype Comment = Comment(text: Option<string>, user: Option<UserId>, createdAt: Time)

  /** A complaint as it is stored after a successful validation. */
  datatype Complaint = Complaint(
    title: string,
    description: string,
    category: Category,
    block: string,
    status: Status,
    student: UserId,
    warden: Option<UserId>,
    comments: seq<Comment>,
    images: seq<string>,
    assignedAt: Option<Time>,
    resolvedAt: Option<Time>)

  /**
   * The fields of a document before validation: what `Complaint.create`
   * is given, or what a loaded document holds when it is saved. A field
   * that is `None` was not supplied.
   */
  datatype Draft = Draft(
    title: Option<string>,
    description: Option<string>,
    category: Option<string>,
    block: Option<string>,
    status: Option<string>,
    student: Option<UserId>,
    warden: Option<UserId>,
    comments: seq<Comment>,
    images: seq<string>,
    assignedAt: Option<Time>,
    resolvedAt: Option<Time>)

  /** The schema paths whose validators can fail. */
  datatype Path = TitlePath | DescriptionPath | CategoryPath | BlockPath | StatusPath | StudentPath

  /** The stored invariant: required strings are non-empty and the block is upper case. */
  predicate WellFormed(c: Complaint)
  {
    && c.title != ""
    && c.description != ""
    && c.block != ""
    && Text.Upper(c.block) == c.block
  }

  /** Every path whose validator fails on `d`. */
  function Errors(d: Draft): (e: set<Path>)
    // a required string path fails exactly when it is absent or empty
    ensures TitlePath in e <==> !Truthy(d.title)
    ensures DescriptionPath in e <==> !Truthy(d.description)
    ensures BlockPath in e <==> !Truthy(d.block)
    ensures StudentPath in e <==> d.student.None?
    // an enum path fails exactly on a value outside the enum; a missing status takes its default
    ensures CategoryPath in e <==> d.category.None? || d.category.value !in CategoryValues
    ensures StatusPath in e <==> d.status.Some? && d.status.value !in StatusValues
  {
    (if Truthy(d.title) then {} else {TitlePath})
    + (if Truthy(d.description) then {} else {DescriptionPath})
    + (if d.category.Some? && ParseCategory(d.category.value).Some? then {} else {CategoryPath})
    + (if Truthy(d.block) then {} else {BlockPath})
    + (if d.status.None? || ParseStatus(d.status.value).Some? then {} else {StatusPath})
    + (if d.student.Some? then {} else {StudentPath})
  }

  /**
   * Cast and validate a draft. Success gives the stored record: the block
   * upper-cased, the status defaulted to `Open`, every other field as
   * given. Failure carries the failing paths.
   */
  function Validate(d: Draft): (r: Result<Complaint, set<Path>>)
    // a required field that is absent always fails
    ensures (d.title.None? || d.description.None? || d.category.None? || d.block.None? || d.student.None?)
              ==> r.Failure?
    ensures r.Failure? ==> r.error != {}
    ensures r.Success? ==> Errors(d) == {} && WellFormed(r.value)
    ensures r.Success? ==>
              && Some(r.value.title) == d.title
              && Some(r.value.description) == d.description
              && Some(CategoryWire(r.value.category)) == d.category
              && r.value.block == Text.Upper(d.block.value)
              && StatusWire(r.value.status) == d.status.GetOr("Open")
              && Some(r.value.student) == d.student
    ensures r.Success? ==>
              && r.value.warden == d.warden
              && r.value.comments == d.comments
              && r.value.images == d.images
              && r.value.assignedAt == d.assignedAt
              && r.value.resolvedAt == d.resolvedAt
    ensures Errors(d) == {} ==> r.Success?
  {
    var e := Errors(d);
    if e != {} then Failure(e)
    else
      var block := Text.Upper(d.block.value);
      Text.UpperIdempotent(d.block.value);
      Success(Complaint(
        d.title.value,
        d.description.value,
        ParseCategory(d.category.value).value,
        block,
        if d.status.None? then Open else ParseStatus(d.status.value).value,
        d.student.value,
        d.warden,
        d.comments,
        d.images,
        d.assignedAt,
        d.resolvedAt))
  }

  /** The fields of a stored record, as a loaded document holds them. */
  function ToDraft(c: Complaint): Draft
  {
    Draft(Some(c.title), Some(c.description), Some(CategoryWire(c.category)), Some(c.block),
          Some(StatusWire(c.status)), Some(c.student), c.warden, c.comments, c.images,
          c.assignedAt, c.resolvedAt)
  }

  /** Saving a loaded, unmodified record validates and gives the same record back. */
  lemma LoadSaveRoundTrip(c: Complaint)
    requires WellFormed(c)
    ensures Validate(ToDraft(c)) == Success(c)
  {
    CategoryWireRoundTrip(c.category);
    StatusWireRoundTrip(c.status);
  }

  /** Upper-casing the block once on create and again on a later save changes nothing more. */
  lemma BlockNormalisationIdempotent(d: Draft)
    requires Validate(d).Success?
    ensures Validate(d.(block := Some(Validate(d).value.block))) == Validate(d)
  {
    Text.UpperIdempotent(d.block.value);
  }

  // ---------------------------------------------------------------- comments

  /** The one key of a comment sub-document that holds its text. */
  const CommentTextKey: string := "text"

  /**
   * Cast `{ user: user, [key]: value }` pushed onto `comments`: the
   * sub-document keeps `user`, takes `createdAt` from its `Date.now`
   * default, and keeps `value` only when `key` is the schema's `text`
   * field; any other key is dropped by the schema's strict mode.
   */
  function CastComment(key: string, value: string, user: UserId, now: Time): (r: Comment)
    ensures r.user == Some(user) && r.createdAt == now
    ensures r.text.Some? <==> key == CommentTextKey
    ensures r.text.Some? ==> r.text.value == value
  {
    Comment(if key == CommentTextKey then Some(value) else None, Some(user), now)
  }
}
