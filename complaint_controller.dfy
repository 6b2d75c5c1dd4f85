/**
 * The complaint handlers (backend/controllers/complaintController.js):
 * `createComplaint` builds a document from the request and stores it, and
 * `updateComplaint` loads one, overwrites its status, pushes a comment
 * and saves it. The database is a map from ids to stored records; loading
 * makes a fresh mutable document, and saving validates it and writes it
 * back. HTTP replies are values.
 */
module ComplaintController {
  import opened Wrappers
  import opened Js
  import opened ComplaintSchema
  import Text

  type ComplaintId = nat

  /** An uploaded file as the upload middleware hands it over; only its path is used. */
  datatype UploadedFile = UploadedFile(path: string)

  /** The JSON body of a create request (`block` is read only by the corrected handler). */
  datatype CreateBody = CreateBody(
    title: Option<string>,
    description: Option<string>,
    category: Option<string>,
    block: Option<string>)

  /** The JSON body of an update request. */
  datatype UpdateBody = UpdateBody(status: Option<string>, comment: Option<string>)

  /** A reply: a status code with the complaint as JSON, or with a message. */
  datatype Reply = Json(code: nat, complaint: Complaint) | Message(code: nat, text: string)

  /** `files.map(file => file.path)`: the paths in upload order. */
  function Paths(files: seq<UploadedFile>): (r: seq<string>)
    ensures |r| == |files|
    ensures forall i :: 0 <= i < |files| ==> r[i] == files[i].path
  {
    if files == [] then [] else [files[0].path] + Paths(files[1..])
  }

  /** The key under which `updateComplaint` pushes the comment text. */
  const WrittenCommentKey: string := "comment"

  /** The object handed to `Complaint.create` by the handler as written: no `block`. */
  function CreateDraft(body: CreateBody, images: seq<string>, requester: UserId): (d: Draft)
    ensures d.title == body.title && d.description == body.description && d.category == body.category
    ensures d.student == Some(requester) && d.images == images
    ensures d.block.None? && d.status.None? && d.warden.None? && d.comments == []
    ensures d.assignedAt.None? && d.resolvedAt.None?
  {
    Draft(body.title, body.description, body.category, None, None, Some(requester),
          None, [], images, None, None)
  }

  /** The same object with the request's `block` passed through, as the schema requires. */
  function CreateDraftWithBlock(body: CreateBody, images: seq<string>, requester: UserId): (d: Draft)
    ensures d.block == body.block
    ensures d.title == body.title && d.description == body.description && d.category == body.category
    ensures d.student == Some(requester) && d.images == images
    ensures d.status.None? && d.warden.None? && d.comments == []
  {
    CreateDraft(body, images, requester).(block := body.block)
  }

  /** As written, no create request can validate: `block` is required and never supplied. */
  lemma CreateAlwaysFails(body: CreateBody, images: seq<string>, requester: UserId)
    ensures Validate(CreateDraft(body, images, requester)).Failure?
    ensures BlockPath in Validate(CreateDraft(body, images, requester)).error
  {
  }

  /**
   * With `block` passed through, a request with the required fields
   * validates exactly when no validator fails, and the record has the
   * requester as student, the images in upload order, status Open, the
   * block upper-cased, no warden, no comments and no lifecycle dates.
   */
  lemma CreateWithBlockRecord(body: CreateBody, images: seq<string>, requester: UserId)
    ensures var r := Validate(CreateDraftWithBlock(body, images, requester));
      && (r.Success? <==>
            Truthy(body.title) && Truthy(body.description) && Truthy(body.block)
            && body.category.Some? && body.category.value in CategoryValues)
      && (r.Success? ==>
            && r.value.student == requester
            && r.value.images == images
            && r.value.status == Open
            && r.value.block == Text.Upper(body.block.value)
            && r.value.warden == None
            && r.value.comments == []
            && r.value.assignedAt == None && r.value.resolvedAt == None)
  {
    var d := CreateDraftWithBlock(body, images, requester);
    var r := Validate(d);
    if r.Success? {
      assert StatusWire(r.value.status) == "Open";
    }
  }

  /**
   * The record an update saves, or `None` when the save fails
   * validation. `key` is the key the comment is pushed under.
   */
  function UpdatedRecord(c: Complaint, body: UpdateBody, requester: UserId, now: Time, key: string)
    : (r: Option<Complaint>)
    requires WellFormed(c)
    // the only failure: a truthy status outside the enum
    ensures r.None? <==> Truthy(body.status) && body.status.value !in StatusValues
    // whatever the current status, including Resolved, a truthy status is written
    ensures r.Some? && Truthy(body.status) ==> StatusWire(r.value.status) == body.status.value
    ensures r.Some? && !Truthy(body.status) ==> r.value.status == c.status
    // a truthy comment appends exactly one entry at the end; the earlier ones are kept
    ensures r.Some? ==>
              |r.value.comments| == |c.comments| + (if Truthy(body.comment) then 1 else 0)
              && r.value.comments[..|c.comments|] == c.comments
    ensures r.Some? && Truthy(body.comment) ==>
              r.value.comments[|c.comments|] == CastComment(key, body.comment.value, requester, now)
    // every other field is untouched
    ensures r.Some? ==> r.value == c.(status := r.value.status, comments := r.value.comments)
  {
    var status := if Truthy(body.status) then ParseStatus(body.status.value) else Some(c.status);
    if status.None? then None
    else
      var extra := if Truthy(body.comment) then [CastComment(key, body.comment.value, requester, now)] else [];
      assert (c.comments + extra)[..|c.comments|] == c.comments;
      Some(c.(status := status.value, comments := c.comments + extra))
  }

  /** As written, the appended comment has no text: the `comment` key is not a schema field. */
  lemma UpdateDropsCommentText(c: Complaint, body: UpdateBody, requester: UserId, now: Time)
    requires WellFormed(c)
    requires Truthy(body.comment)
    requires UpdatedRecord(c, body, requester, now, WrittenCommentKey).Some?
    ensures UpdatedRecord(c, body, requester, now, WrittenCommentKey).value.comments[|c.comments|].text == None
  {
  }

  /** With the schema's `text` key, the appended comment carries the text that was sent. */
  lemma UpdateWithTextKeyKeepsComment(c: Complaint, body: UpdateBody, requester: UserId, now: Time)
    requires WellFormed(c)
    requires Truthy(body.comment)
    requires UpdatedRecord(c, body, requester, now, CommentTextKey).Some?
    ensures UpdatedRecord(c, body, requester, now, CommentTextKey).value.comments[|c.comments|]
              == Comment(body.comment, Some(requester), now)
  {
  }

  /** Only truthiness is checked, so a whitespace-only comment is appended like any other. */
  lemma WhitespaceCommentAppended(c: Complaint, requester: UserId, now: Time)
    requires WellFormed(c)
    ensures var r := UpdatedRecord(c, UpdateBody(None, Some("   ")), requester, now, WrittenCommentKey);
      r.Some? && |r.value.comments| == |c.comments| + 1
  {
  }

  /** There is no transition check: a Resolved complaint can be reopened. */
  lemma ResolvedCanBeReopened(c: Complaint, requester: UserId, now: Time)
    requires WellFormed(c) && c.status == Resolved
    ensures UpdatedRecord(c, UpdateBody(Some("Open"), None), requester, now, WrittenCommentKey)
              == Some(c.(status := Open))
  {
    assert c.comments + [] == c.comments;
  }

  /** The mutable document `findById` returns: the stored fields, status and category as strings. */
  class ComplaintDoc {
    var title: string
    var description: string
    var category: string
    var block: string
    var status: string
    var student: UserId
    var warden: Option<UserId>
    var comments: seq<Comment>
    var images: seq<string>
    var assignedAt: Option<Time>
    var resolvedAt: Option<Time>

    /** What `save` validates. */
    function Snapshot(): Draft
      reads this
    {
      Draft(Some(title), Some(description), Some(category), Some(block), Some(status),
            Some(student), warden, comments, images, assignedAt, resolvedAt)
    }

    /** Hydrate a document from a stored record. */
    constructor Load(c: Complaint)
      ensures Snapshot() == ToDraft(c)
    {
      title, description := c.title, c.description;
      category, block := CategoryWire(c.category), c.block;
      status, student, warden := StatusWire(c.status), c.student, c.warden;
      comments, images := c.comments, c.images;
      assignedAt, resolvedAt := c.assignedAt, c.resolvedAt;
    }
  }

  /** The complaints collection. */
  class ComplaintStore {
    var records: map<ComplaintId, Complaint>
    /** The id the next created complaint receives. */
    var nextId: ComplaintId

    ghost predicate Valid()
      reads this
    {
      forall id :: id in records ==> id < nextId && WellFormed(records[id])
    }

    constructor ()
      ensures Valid() && records == map[] && nextId == 0
    {
      records, nextId := map[], 0;
    }

    /** Validate a draft and, when it passes, store it under a new id (201); otherwise 500. */
    method Insert(d: Draft) returns (reply: Reply)
      requires Valid()
      modifies this
      ensures Valid()
      ensures Validate(d).Failure? ==>
                reply == Message(500, "Server error") && records == old(records) && nextId == old(nextId)
      ensures Validate(d).Success? ==>
                && reply == Json(201, Validate(d).value)
                && records == old(records)[old(nextId) := Validate(d).value]
                && nextId == old(nextId) + 1
    {
      var saved := Validate(d);
      if saved.Failure? {
        return Message(500, "Server error");
      }
      records := records[nextId := saved.value];
      nextId := nextId + 1;
      reply := Json(201, saved.value);
    }

    /** `createComplaint` as written; by `CreateAlwaysFails` it always answers 500. */
    method CreateComplaint(body: CreateBody, files: Option<seq<UploadedFile>>, requester: UserId)
      returns (reply: Reply)
      requires Valid()
      modifies this
      ensures Valid()
      ensures reply == Message(500, "Server error") && records == old(records) && nextId == old(nextId)
    {
      var images := [];
      if files.Some? {
        images := Paths(files.value);
      }
      CreateAlwaysFails(body, images, requester);
      reply := Insert(CreateDraft(body, images, requester));
    }

    /** `createComplaint` with the request's `block` passed to the model. */
    method CreateComplaintWithBlock(body: CreateBody, files: Option<seq<UploadedFile>>, requester: UserId)
      returns (reply: Reply)
      requires Valid()
      modifies this
      ensures Valid()
      ensures var d := CreateDraftWithBlock(body, if files.Some? then Paths(files.value) else [], requester);
        && (Validate(d).Failure? ==>
              reply == Message(500, "Server error") && records == old(records))
        && (Validate(d).Success? ==>
              reply == Json(201, Validate(d).value) && records == old(records)[old(nextId) := Validate(d).value])
    {
      var images := [];
      if files.Some? {
        images := Paths(files.value);
      }
      reply := Insert(CreateDraftWithBlock(body, images, requester));
    }

    /**
     * `updateComplaint`: 404 for an unknown id; otherwise write a truthy
     * status, push a truthy comment under `key`, and save. A failed save
     * answers 500 and leaves the store as it was.
     */
    method UpdateWithKey(id: ComplaintId, body: UpdateBody, requester: UserId, now: Time, key: string)
      returns (reply: Reply)
      requires Valid()
      modifies this
      ensures Valid() && nextId == old(nextId)
      ensures id !in old(records) ==>
                reply == Message(404, "Complaint not found") && records == old(records)
      ensures id in old(records) ==>
                match UpdatedRecord(old(records)[id], body, requester, now, key)
                case None => reply == Message(500, "Server error") && records == old(records)
                case Some(c) => reply == Json(200, c) && records == old(records)[id := c]
    {
      if id !in records {
        return Message(404, "Complaint not found");
      }
      var stored := records[id];
      var doc := new ComplaintDoc.Load(stored);
      if Truthy(body.status) {
        doc.status := body.status.value;
      }
      if Truthy(body.comment) {
        doc.comments := doc.comments + [CastComment(key, body.comment.value, requester, now)];
      }
      var saved := Validate(doc.Snapshot());
      CategoryWireRoundTrip(stored.category);
      if saved.Failure? {
        return Message(500, "Server error");
      }
      StatusWireRoundTrip(saved.value.status);
      CategoryWireRoundTrip(saved.value.category);
      var u := UpdatedRecord(stored, body, requester, now, key);
      assert u.Some?;
      assert saved.value.category == u.value.category;
      assert saved.value.status == u.value.status;
      assert saved.value.comments == u.value.comments;
      assert Some(saved.value) == UpdatedRecord(stored, body, requester, now, key);
      records := records[id := saved.value];
      reply := Json(200, saved.value);
    }

    /** `updateComplaint` as written: the comment goes under the key `comment`. */
    method UpdateComplaint(id: ComplaintId, body: UpdateBody, requester: UserId, now: Time)
      returns (reply: Reply)
      requires Valid()
      modifies this
      ensures Valid() && nextId == old(nextId)
      ensures id !in old(records) ==>
                reply == Message(404, "Complaint not found") && records == old(records)
      ensures id in old(records) ==>
                match UpdatedRecord(old(records)[id], body, requester, now, WrittenCommentKey)
                case None => reply == Message(500, "Server error") && records == old(records)
                case Some(c) => reply == Json(200, c) && records == old(records)[id := c]
    {
      reply := UpdateWithKey(id, body, requester, now, WrittenCommentKey);
    }

    /** `updateComplaint` with the comment pushed under the schema's `text` field. */
    method UpdateComplaintWithTextKey(id: ComplaintId, body: UpdateBody, requester: UserId, now: Time)
      returns (reply: Reply)
      requires Valid()
      modifies this
      ensures Valid() && nextId == old(nextId)
      ensures id !in old(records) ==>
                reply == Message(404, "Complaint not found") && records == old(records)
      ensures id in old(records) ==>
                match UpdatedRecord(old(records)[id], body, requester, now, CommentTextKey)
                case None => reply == Message(500, "Server error") && records == old(records)
                case Some(c) => reply == Json(200, c) && records == old(records)[id := c]
    {
      reply := UpdateWithKey(id, body, requester, now, CommentTextKey);
    }
  }
}
