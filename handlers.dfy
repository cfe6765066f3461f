/** The decision logic of the HTTP handlers in app.py, over the capsule store: recipient
    normalisation and the upload, the download gate, the owner-only delete and the hourly
    expiry sweep. Every call to the remote storage service is an input: its status code, or
    `Failed` when the call raises. */
module Handlers {
  import opened Common
  import opened Text
  import opened Timestamps
  import opened Store

  /** What a call to the remote storage service returned. */
  datatype Remote = Status(code: int) | Failed

  /** Why a request is rejected with status 400. */
  datatype Problem =
    | NoFile
    | NoUserField
    | NoFilename
    | NoRecipients
    | NoValidRecipients
    | BadRecipientJson
    | BadDate

  /** The handler's answer, as a tag. */
  datatype Reply =
    | Unauthorized
    | Invalid(problem: Problem)
    | NotFound
    | Locked(unlockDate: string)
    | Forbidden
    | Upstream(code: int)
    | Internal
    | Served(shouldDelete: bool)
    | Uploaded(fileId: FileId)
    | Deleted

  /** The HTTP status of a reply. */
  function Code(r: Reply): int {
    match r
    case Unauthorized => 401
    case Invalid(_) => 400
    case NotFound => 404
    case Locked(_) => 403
    case Forbidden => 403
    case Upstream(c) => c
    case Internal => 500
    case Served(_) => 200
    case Uploaded(_) => 200
    case Deleted => 200
  }

  // ---------------------------------------------------------------------------------------
  // Upload

  /** The recipient field: text starting with '[' is a JSON list (`decoded` is what `json.loads`
      returns, `None` when it raises); other text is split on ',' with blank items dropped. The
      list is then deduplicated and must not be empty. */
  function NormalizeRecipients(raw: string, decoded: Option<seq<UserId>>): (r: Result<seq<UserId>, Problem>)
    ensures r.Ok? ==> Distinct(r.value) && r.value != []
    ensures raw == [] ==> r == Err(NoRecipients)
    ensures raw != [] && raw[0] == '[' ==>
      && (decoded.None? ==> r == Err(BadRecipientJson))
      && (decoded.Some? ==> (r.Ok? <==> decoded.value != []) && (r.Err? ==> r.error == NoValidRecipients))
      && (decoded.Some? && r.Ok? ==> forall u :: u in r.value <==> u in decoded.value)
    ensures raw != [] && raw[0] != '[' ==>
      && (r.Ok? <==> CommaItems(raw) != [])
      && (r.Err? ==> r.error == NoValidRecipients)
      && (r.Ok? ==> forall u :: u in r.value <==> u in CommaItems(raw))
  {
    if raw == [] then Err(NoRecipients)
    else
      var parsed := if raw[0] == '[' then decoded else Some(CommaItems(raw));
      match parsed
      case None => Err(BadRecipientJson)
      case Some(list) =>
        var unique := Dedup(list);
        assert list != [] ==> list[0] in unique;
        if unique == [] then Err(NoValidRecipients) else Ok(unique)
  }

  /** Comma-separated ids that are already clean and distinct come back as the same ids, each
      once, in some order. */
  lemma RecipientsOfJoinedIds(ids: seq<UserId>, decoded: Option<seq<UserId>>)
    requires |ids| >= 1 && Distinct(ids)
    requires forall i :: 0 <= i < |ids| ==> ids[i] != [] && Stripped(ids[i]) && ',' !in ids[i]
    requires ids[0][0] != '['
    ensures NormalizeRecipients(Join(ids, ','), decoded).Ok?
    ensures multiset(NormalizeRecipients(Join(ids, ','), decoded).value) == multiset(ids)
  {
    CommaItemsOfJoin(ids);
    DedupOfDistinct(ids);
    var raw := Join(ids, ',');
    assert raw != [] && raw[0] == ids[0][0] by {
      JoinHead(ids, ',');
    }
  }

  lemma JoinHead(parts: seq<string>, sep: char)
    requires |parts| >= 1 && parts[0] != []
    ensures Join(parts, sep) != [] && Join(parts, sep)[0] == parts[0][0]
  {
    if |parts| > 1 {
      assert Join(parts, sep) == parts[0] + [sep] + Join(parts[1..], sep);
    }
  }

  /** The uploader is appended unless already listed. */
  function WithUploader(users: seq<UserId>, uploader: UserId): (r: seq<UserId>)
    ensures uploader in r
    ensures forall u :: u in r <==> u in users || u == uploader
    ensures |r| >= |users| && r[..|users|] == users
    ensures Distinct(users) ==> Distinct(r)
  {
    if uploader in users then users else users + [uploader]
  }

  /** The form of an upload request. `decoded` is `json.loads` of the recipient field, supplied
      from outside; `unlockDate` is `None` when the form has no such field. */
  datatype UploadForm = UploadForm(
    hasFile: bool,
    filename: string,
    user: Option<UserId>,
    allowedUsers: string,
    decoded: Option<seq<UserId>>,
    unlockDate: Option<string>,
    fileSize: int,
    mimeType: string)

  /** The reply, the new tables, and whether the file was sent to the remote service. */
  datatype UploadOutcome = UploadOutcome(reply: Reply, tables: Tables, remoteCalled: bool)

  /** The record `add_file` receives for a normalised recipient list. */
  function FileData(form: UploadForm, users: seq<UserId>): NewFile
    requires form.user.Some? && form.unlockDate.Some?
  {
    NewFile(form.filename, form.unlockDate.value, users, form.fileSize, form.mimeType, form.user.value)
  }

  /** `upload` at time `now`, where `remoteUrl` is the URL the remote upload returned (`None` when
      it raised). The capsule id is the last '/'-separated piece of that URL. */
  function UploadSpec(t: Tables, form: UploadForm, now: DateTime, remoteUrl: Option<string>): UploadOutcome
    requires ValidDateTime(now)
  {
    if !form.hasFile then UploadOutcome(Invalid(NoFile), t, false)
    else if form.user.None? then UploadOutcome(Invalid(NoUserField), t, false)
    else if form.filename == [] then UploadOutcome(Invalid(NoFilename), t, false)
    else match NormalizeRecipients(form.allowedUsers, form.decoded)
      case Err(p) => UploadOutcome(Invalid(p), t, false)
      case Ok(list) =>
        var users := WithUploader(list, form.user.value);
        if form.unlockDate.None? then UploadOutcome(Internal, t, false)
        else if remoteUrl.None? then UploadOutcome(Internal, t, true)
        else
          var id := LastPiece(remoteUrl.value, '/');
          match InsertFile(t, id, FileData(form, users), now)
          case Err(_) => UploadOutcome(Internal, t, true)
          case Ok(t') => UploadOutcome(Uploaded(id), t', true)
  }

  /** A missing file, user field or file name, and an empty, unusable or malformed recipient field
      are all rejected with 400 before anything is sent to the remote service or written. */
  lemma UploadRejectsEarly(t: Tables, form: UploadForm, now: DateTime, remoteUrl: Option<string>)
    requires ValidDateTime(now)
    ensures var o := UploadSpec(t, form, now, remoteUrl);
      && (o.reply.Invalid? ==> !o.remoteCalled && o.tables == t && Code(o.reply) == 400)
      && (form.hasFile && form.user.Some? && form.filename != [] ==>
            (o.reply.Invalid? <==> NormalizeRecipients(form.allowedUsers, form.decoded).Err?))
      && (form.allowedUsers == [] ==> o.reply.Invalid?)
  {
  }

  /** A successful upload stores the capsule under the last piece of the returned URL, as the
      insert Inserted describes: its list is the normalised recipients plus the uploader, each once
      and each with a pending tracking row, and its unlock date is in the stored form. */
  lemma UploadStores(t: Tables, form: UploadForm, now: DateTime, remoteUrl: Option<string>)
    requires ValidDateTime(now)
    requires UploadSpec(t, form, now, remoteUrl).reply.Uploaded?
    ensures var o := UploadSpec(t, form, now, remoteUrl);
      var id := o.reply.fileId;
      && remoteUrl.Some? && id == LastPiece(remoteUrl.value, '/')
      && form.user.Some? && form.unlockDate.Some?
      && NormalizeRecipients(form.allowedUsers, form.decoded).Ok?
      && var users := WithUploader(NormalizeRecipients(form.allowedUsers, form.decoded).value, form.user.value);
      && id !in t.files && Distinct(users)
      && (forall u :: u in users <==>
            u == form.user.value || u in NormalizeRecipients(form.allowedUsers, form.decoded).value)
      && Inserted(t, o.tables, id, FileData(form, users), now)
  {
    var o := UploadSpec(t, form, now, remoteUrl);
    var list := NormalizeRecipients(form.allowedUsers, form.decoded).value;
    var users := WithUploader(list, form.user.value);
    var id := LastPiece(remoteUrl.value, '/');
    InsertFileOutcome(t, id, FileData(form, users), now);
  }

  /** The unlock date is only checked by `add_file`, after the file has been sent to the remote
      service: an otherwise valid upload with an unparsable unlock date fails with 500 after the
      remote upload, and writes nothing. */
  lemma UploadChecksDateAfterRemote(t: Tables, form: UploadForm, now: DateTime, url: string)
    requires ValidDateTime(now)
    requires form.hasFile && form.user.Some? && form.filename != []
    requires NormalizeRecipients(form.allowedUsers, form.decoded).Ok?
    requires form.unlockDate.Some? && ParseLocal(form.unlockDate.value).None?
    ensures UploadSpec(t, form, now, Some(url)) == UploadOutcome(Internal, t, true)
  {
    var list := NormalizeRecipients(form.allowedUsers, form.decoded).value;
    InsertFileRejects(t, LastPiece(url, '/'), FileData(form, WithUploader(list, form.user.value)), now);
  }

  /** Uploading keeps the store consistent, provided no tracking row is left under the new id. */
  lemma UploadConsistent(t: Tables, form: UploadForm, now: DateTime, remoteUrl: Option<string>)
    requires ValidDateTime(now) && Consistent(t)
    requires remoteUrl.Some? ==> forall k :: k in t.tracking ==> k.0 != LastPiece(remoteUrl.value, '/')
    ensures Consistent(UploadSpec(t, form, now, remoteUrl).tables)
  {
    var o := UploadSpec(t, form, now, remoteUrl);
    if o.reply.Uploaded? {
      var list := NormalizeRecipients(form.allowedUsers, form.decoded).value;
      var users := WithUploader(list, form.user.value);
      var id := LastPiece(remoteUrl.value, '/');
      InsertFileConsistent(t, id, FileData(form, users), now);
    }
  }

  // ---------------------------------------------------------------------------------------
  // Download

  /** The detached task that removes a fully downloaded capsule: a 200 from the move to trash
      leads to emptying the trash, and unless that raises, to `delete_file`. */
  function DetachedDelete(t: Tables, id: FileId, trash: Remote, empty: Remote): Tables {
    if trash == Status(200) && !empty.Failed? then RemoveFileRow(t, id).0 else t
  }

  /** `download` at time `now` for the `user_id` query argument `user`; `fetch` is the remote
      fetch, `trash` and `empty` the two calls of the detached delete. */
  function DownloadSpec(t: Tables, id: FileId, user: Option<UserId>, now: DateTime,
                        fetch: Remote, trash: Remote, empty: Remote): (Reply, Tables)
    requires ValidDateTime(now)
  {
    if user.None? || user.value == [] then (Unauthorized, t)
    else match LookupFile(t, id)
      case Absent => (NotFound, t)
      case Unreadable => (Internal, t)
      case Found(info) =>
        match ParseStored(info.unlockDate)
        case None => (Invalid(BadDate), t)
        case Some(unlockAt) =>
          if !info.unlocked && Before(now, unlockAt) then (Locked(info.unlockDate), t)
          else if user.value !in info.allowedUsers then (Forbidden, t)
          else match fetch
            case Failed => (Internal, t)
            case Status(c) =>
              if c != 200 then (Upstream(c), t)
              else
                var (t1, last) := MarkDownloaded(t, id, user.value, FormatStored(now));
                (Served(last), if last then DetachedDelete(t1, id, trash, empty) else t1)
  }

  /** The content is served only to a recipient, only once the capsule is unlocked or its unlock
      time has come, and only after a 200 fetch; every other outcome leaves the store unchanged. */
  lemma DownloadServesOnlyUnlockedRecipients(t: Tables, id: FileId, user: Option<UserId>, now: DateTime,
                                             fetch: Remote, trash: Remote, empty: Remote)
    requires ValidDateTime(now)
    ensures var (reply, t') := DownloadSpec(t, id, user, now, fetch, trash, empty);
      && (reply.Served? ==>
            && user.Some? && id in t.files && ListsUser(t.files[id].allowed, user.value)
            && ParseStored(t.files[id].unlockDate).Some?
            && (t.files[id].unlocked || !Before(now, ParseStored(t.files[id].unlockDate).value))
            && fetch == Status(200))
      && (!reply.Served? ==> t' == t)
  {
  }

  /** The gates run in order: no user id is 401, an unknown capsule 404, and a locked capsule 403
      with its unlock date whether or not the caller is a recipient. */
  lemma DownloadGateOrder(t: Tables, id: FileId, user: Option<UserId>, now: DateTime,
                          fetch: Remote, trash: Remote, empty: Remote)
    requires ValidDateTime(now)
    ensures var reply := DownloadSpec(t, id, user, now, fetch, trash, empty).0;
      && ((user.None? || user.value == []) <==> reply == Unauthorized)
      && (user.Some? && user.value != [] && id !in t.files ==> reply == NotFound)
      && (user.Some? && user.value != [] && id in t.files && !t.files[id].allowed.BadJson?
          && !t.files[id].unlocked && ParseStored(t.files[id].unlockDate).Some?
          && Before(now, ParseStored(t.files[id].unlockDate).value)
          ==> reply == Locked(t.files[id].unlockDate) && Code(reply) == 403)
      && (user.Some? && user.value != [] && id in t.files && !t.files[id].allowed.BadJson?
          && ParseStored(t.files[id].unlockDate).Some?
          && (t.files[id].unlocked || !Before(now, ParseStored(t.files[id].unlockDate).value))
          && !ListsUser(t.files[id].allowed, user.value)
          ==> reply == Forbidden)
  {
  }

  /** A served download asks for deletion exactly when the caller was the last recipient still to
      download; the capsule row then goes exactly when both remote calls go through. */
  lemma DownloadDeletesAfterLastRecipient(t: Tables, id: FileId, user: Option<UserId>, now: DateTime,
                                          fetch: Remote, trash: Remote, empty: Remote)
    requires ValidDateTime(now)
    requires DownloadSpec(t, id, user, now, fetch, trash, empty).0.Served?
    ensures var (reply, t') := DownloadSpec(t, id, user, now, fetch, trash, empty);
      && (reply.shouldDelete <==> Pending(t, id) == {user.value})
      && Pending(t', id) == Pending(t, id) - {user.value}
      && (id in t'.files <==> !(reply.shouldDelete && trash == Status(200) && !empty.Failed?))
      && t'.tracking.Keys == t.tracking.Keys
  {
    MarkDownloadedPending(t, id, user.value, FormatStored(now));
  }

  /** The detached delete keeps the store consistent. */
  lemma DetachedDeleteConsistent(t: Tables, id: FileId, trash: Remote, empty: Remote)
    requires Consistent(t)
    ensures Consistent(DetachedDelete(t, id, trash, empty))
  {
    RemoveFileRowLeavesTracking(t, id);
  }

  /** Downloads keep the store consistent. */
  lemma DownloadConsistent(t: Tables, id: FileId, user: Option<UserId>, now: DateTime,
                           fetch: Remote, trash: Remote, empty: Remote)
    requires ValidDateTime(now) && Consistent(t)
    ensures Consistent(DownloadSpec(t, id, user, now, fetch, trash, empty).1)
  {
    DownloadServesOnlyUnlockedRecipients(t, id, user, now, fetch, trash, empty);
    var (reply, t') := DownloadSpec(t, id, user, now, fetch, trash, empty);
    if reply.Served? {
      var (t1, last) := MarkDownloaded(t, id, user.value, FormatStored(now));
      MarkDownloadedConsistent(t, id, user.value, FormatStored(now));
      DetachedDeleteConsistent(t1, id, trash, empty);
      assert t' == t1 || t' == DetachedDelete(t1, id, trash, empty);
    }
  }


  /** After an upload, the capsule is pending for exactly the normalised recipients and the
      uploader. */
  lemma UploadPendingRecipients(t: Tables, form: UploadForm, now: DateTime, remoteUrl: Option<string>)
    requires ValidDateTime(now)
    requires UploadSpec(t, form, now, remoteUrl).reply.Uploaded?
    requires forall k :: k in t.tracking ==> k.0 != UploadSpec(t, form, now, remoteUrl).reply.fileId
    ensures var o := UploadSpec(t, form, now, remoteUrl);
      forall u :: u in Pending(o.tables, o.reply.fileId) <==>
        u == form.user.value || u in NormalizeRecipients(form.allowedUsers, form.decoded).value
  {
    var o := UploadSpec(t, form, now, remoteUrl);
    var id := o.reply.fileId;
    var list := NormalizeRecipients(form.allowedUsers, form.decoded).value;
    var users := WithUploader(list, form.user.value);
    InsertFileOutcome(t, id, FileData(form, users), now);
    forall u ensures u in Pending(o.tables, id) <==> u in users {
      if u in users {
        assert (id, u) in o.tables.tracking && !o.tables.tracking[(id, u)].downloaded;
      }
    }
  }

  /** A recipient's download of a readable capsule whose unlock time has come, with a 200 fetch, is
      the check-and-set followed, when it reports the last recipient, by the detached delete. */
  lemma DownloadPassesGates(t: Tables, id: FileId, user: UserId, now: DateTime, trash: Remote, empty: Remote)
    requires ValidDateTime(now) && user != []
    requires id in t.files && t.files[id].allowed.JsonList? && user in t.files[id].allowed.users
    requires ParseStored(t.files[id].unlockDate).Some?
    requires !Before(now, ParseStored(t.files[id].unlockDate).value)
    ensures var (t1, last) := MarkDownloaded(t, id, user, FormatStored(now));
      DownloadSpec(t, id, Some(user), now, Status(200), trash, empty)
        == (Served(last), if last then DetachedDelete(t1, id, trash, empty) else t1)
  {
  }

  /** A capsule still pending for bob and for its uploader alice, as an upload by alice for bob
      leaves it (`UploadPendingRecipients`): once it has unlocked, bob's download is served and
      keeps the capsule, and alice's later download is served, asks for deletion, and with the
      remote calls answering 200 and 204 removes the capsule. */
  lemma UploaderDownloadsLast(t: Tables, id: FileId, alice: UserId, bob: UserId,
                              later: DateTime, last: DateTime, trash: Remote, empty: Remote)
    requires ValidDateTime(later) && ValidDateTime(last)
    requires alice != [] && bob != [] && alice != bob
    requires id in t.files && t.files[id].allowed.JsonList?
    requires alice in t.files[id].allowed.users && bob in t.files[id].allowed.users
    requires Pending(t, id) == {bob, alice}
    requires ParseStored(t.files[id].unlockDate).Some?
    requires !Before(later, ParseStored(t.files[id].unlockDate).value)
    requires !Before(last, ParseStored(t.files[id].unlockDate).value)
    ensures var (r1, t1) := DownloadSpec(t, id, Some(bob), later, Status(200), trash, empty);
      var (r2, t2) := DownloadSpec(t1, id, Some(alice), last, Status(200), Status(200), Status(204));
      && r1 == Served(false) && id in t1.files
      && r2 == Served(true) && id !in t2.files
  {
    MarkDownloadedPending(t, id, bob, FormatStored(later));
    DownloadPassesGates(t, id, bob, later, trash, empty);
    var t1 := MarkDownloaded(t, id, bob, FormatStored(later)).0;
    assert Pending(t1, id) == {alice};
    MarkDownloadedPending(t1, id, alice, FormatStored(last));
    DownloadPassesGates(t1, id, alice, last, Status(200), Status(204));
  }

  // ---------------------------------------------------------------------------------------
  // Explicit delete

  /** `delete_file_route` for the `user_id` query argument `user`; `trash` is the move to trash,
      `empty` the emptying of the trash. */
  function DeleteSpec(t: Tables, id: FileId, user: Option<UserId>, trash: Remote, empty: Remote): (Reply, Tables) {
    if user.None? || user.value == [] then (Unauthorized, t)
    else match LookupFile(t, id)
      case Absent => (NotFound, t)
      case Unreadable => (Internal, t)
      case Found(info) =>
        if info.uploaderId != user.value then (Forbidden, t)
        else match trash
          case Failed => (Internal, t)
          case Status(c) =>
            if c != 200 then (Upstream(c), t)
            else match empty
              case Failed => (Internal, t)
              case Status(e) =>
                if e != 200 && e != 204 then (Upstream(e), t)
                else (Deleted, DropCapsules(t, {id}))
  }

  /** Only the uploader can delete, recipients included; a delete that succeeds removes exactly
      the capsule's row and its tracking rows, and any failure leaves the store unchanged. */
  lemma DeleteOnlyByOwner(t: Tables, id: FileId, user: Option<UserId>, trash: Remote, empty: Remote)
    ensures var (reply, t') := DeleteSpec(t, id, user, trash, empty);
      && (reply == Deleted <==>
            && user.Some? && user.value != [] && id in t.files && !t.files[id].allowed.BadJson?
            && t.files[id].uploaderId == user.value
            && trash == Status(200) && empty.Status? && (empty.code == 200 || empty.code == 204))
      && ((user.Some? && user.value != [] && id in t.files && !t.files[id].allowed.BadJson?
           && t.files[id].uploaderId != user.value) ==> reply == Forbidden)
      && (reply != Deleted ==> t' == t)
      && (reply == Deleted ==>
            && t'.files.Keys == t.files.Keys - {id}
            && (forall other :: other in t'.files ==> t'.files[other] == t.files[other])
            && (forall k :: k in t'.tracking <==> k in t.tracking && k.0 != id))
  {
  }

  /** A delete by the owner whose remote move to trash is refused or whose trash emptying does not
      answer 200 or 204 reports the remote status and changes nothing. */
  lemma DeleteFailedPurgeKeepsCapsule(t: Tables, id: FileId, user: UserId, trash: Remote, empty: Remote)
    requires user != [] && id in t.files && t.files[id].allowed.JsonList? && t.files[id].uploaderId == user
    requires trash.Status? && empty.Status?
    requires trash.code != 200 || (empty.code != 200 && empty.code != 204)
    ensures DeleteSpec(t, id, Some(user), trash, empty) ==
      (Upstream(if trash.code != 200 then trash.code else empty.code), t)
  {
  }

  /** Deletes keep the store consistent. */
  lemma DeleteConsistent(t: Tables, id: FileId, user: Option<UserId>, trash: Remote, empty: Remote)
    requires Consistent(t)
    ensures Consistent(DeleteSpec(t, id, user, trash, empty).1)
  {
    DropCapsulesConsistent(t, {id});
  }

  // ---------------------------------------------------------------------------------------
  // Expiry sweep

  /** The capsules the hourly sweep selects: `expiry_date` sorts before the current time. */
  function SweepCandidates(t: Tables, now: DateTime): set<FileId>
    requires ValidDateTime(now)
  {
    set id | id in t.files && TextLess(t.files[id].expiryDate, FormatStored(now))
  }

  /** The selected capsules whose move to trash answered 200 and whose trash emptying did not raise. */
  function Purged(t: Tables, now: DateTime, trash: FileId -> Remote, empty: FileId -> Remote): set<FileId>
    requires ValidDateTime(now)
  {
    set id | id in SweepCandidates(t, now) && trash(id) == Status(200) && !empty(id).Failed?
  }

  /** The tables after the sweep: `delete_file` on every purged capsule, whatever happened to the others. */
  function SweepSpec(t: Tables, now: DateTime, trash: FileId -> Remote, empty: FileId -> Remote): Tables
    requires ValidDateTime(now)
  {
    Tables(t.files - Purged(t, now, trash, empty), t.tracking)
  }

  /** On a consistent store the sweep selects the same capsules as the store's own expiry query,
      every one of them has reached its unlock time, and the sweep keeps the store consistent
      while leaving the tracking rows of what it removes behind. */
  lemma SweepRemovesOnlyUnlocked(t: Tables, now: DateTime, trash: FileId -> Remote, empty: FileId -> Remote)
    requires ValidDateTime(now) && Consistent(t)
    ensures SweepCandidates(t, now) == ExpiredIds(t, FormatStored(now))
    ensures forall id :: id in t.files && id !in SweepSpec(t, now, trash, empty).files ==>
      Before(ParseStored(t.files[id].unlockDate).value, now)
    ensures Consistent(SweepSpec(t, now, trash, empty))
    ensures SweepSpec(t, now, trash, empty).tracking == t.tracking
  {
    forall id | id in t.files && id !in SweepSpec(t, now, trash, empty).files
      ensures Before(ParseStored(t.files[id].unlockDate).value, now)
    {
      ExpiredMeansUnlocked(t, now, id);
    }
  }

  // ---------------------------------------------------------------------------------------
  // The handlers over the store object

  /** `upload`. */
  method Upload(db: Database, form: UploadForm, now: DateTime, remoteUrl: Option<string>)
    returns (reply: Reply, remoteCalled: bool)
    requires ValidDateTime(now)
    modifies db
    ensures UploadOutcome(reply, db.State(), remoteCalled) == UploadSpec(old(db.State()), form, now, remoteUrl)
  {
    if !form.hasFile {
      return Invalid(NoFile), false;
    }
    if form.user.None? {
      return Invalid(NoUserField), false;
    }
    if form.filename == [] {
      return Invalid(NoFilename), false;
    }
    var normalized := NormalizeRecipients(form.allowedUsers, form.decoded);
    if normalized.Err? {
      return Invalid(normalized.error), false;
    }
    var users := normalized.value;
    if form.user.value !in users {
      users := users + [form.user.value];
    }
    if form.unlockDate.None? {
      return Internal, false;
    }
    if remoteUrl.None? {
      return Internal, true;
    }
    var id := LastPiece(remoteUrl.value, '/');
    var added := db.AddFile(id, FileData(form, users), now);
    if added.Err? {
      return Internal, true;
    }
    return Uploaded(id), true;
  }

  /** `download`, with the detached delete run to completion. */
  method Download(db: Database, id: FileId, user: Option<UserId>, now: DateTime,
                  fetch: Remote, trash: Remote, empty: Remote) returns (reply: Reply)
    requires ValidDateTime(now)
    modifies db
    ensures (reply, db.State()) == DownloadSpec(old(db.State()), id, user, now, fetch, trash, empty)
  {
    if user.None? || user.value == [] {
      return Unauthorized;
    }
    var file := db.GetFile(id);
    if file.Absent? {
      return NotFound;
    }
    if file.Unreadable? {
      return Internal;
    }
    var info := file.info;
    var unlockAt := ParseStored(info.unlockDate);
    if unlockAt.None? {
      return Invalid(BadDate);
    }
    if !info.unlocked && Before(now, unlockAt.value) {
      return Locked(info.unlockDate);
    }
    if user.value !in info.allowedUsers {
      return Forbidden;
    }
    if fetch.Failed? {
      return Internal;
    }
    if fetch.code != 200 {
      return Upstream(fetch.code);
    }
    var shouldDelete := db.CheckAndUpdateDownload(id, user.value, FormatStored(now));
    if shouldDelete && trash == Status(200) && !empty.Failed? {
      var _ := db.DeleteFile(id);
    }
    return Served(shouldDelete);
  }

  /** `delete_file_route`: the local step removes the tracking rows, then the capsule row. */
  method DeleteCapsule(db: Database, id: FileId, user: Option<UserId>, trash: Remote, empty: Remote)
    returns (reply: Reply)
    modifies db
    ensures (reply, db.State()) == DeleteSpec(old(db.State()), id, user, trash, empty)
  {
    if user.None? || user.value == [] {
      return Unauthorized;
    }
    var file := db.GetFile(id);
    if file.Absent? {
      return NotFound;
    }
    if file.Unreadable? {
      return Internal;
    }
    if file.info.uploaderId != user.value {
      return Forbidden;
    }
    if trash.Failed? {
      return Internal;
    }
    if trash.code != 200 {
      return Upstream(trash.code);
    }
    if empty.Failed? {
      return Internal;
    }
    if empty.code != 200 && empty.code != 204 {
      return Upstream(empty.code);
    }
    ghost var before := db.State();
    db.tracking := map k | k in db.tracking && k.0 != id :: db.tracking[k];
    db.files := db.files - {id};
    assert db.tracking.Keys == DropCapsules(before, {id}).tracking.Keys;
    return Deleted;
  }

  /** The sweep's query: the ids whose `expiry_date` sorts before `cutoff`, each once. */
  method SelectByExpiry(db: Database, cutoff: string) returns (ids: seq<FileId>)
    ensures Distinct(ids)
    ensures forall id :: id in ids <==> id in db.files && TextLess(db.files[id].expiryDate, cutoff)
  {
    ids := [];
    var rest := db.files.Keys;
    while rest != {}
      invariant rest <= db.files.Keys
      invariant Distinct(ids)
      invariant forall id :: id in ids <==> id in db.files && TextLess(db.files[id].expiryDate, cutoff) && id !in rest
      decreases rest
    {
      var id :| id in rest;
      if TextLess(db.files[id].expiryDate, cutoff) {
        ids := ids + [id];
      }
      rest := rest - {id};
    }
  }

  /** `check_expired_files` in app.py: each selected capsule is handled on its own; a refused or
      failing remote call skips that capsule and the loop goes on. */
  method SweepExpired(db: Database, now: DateTime, trash: FileId -> Remote, empty: FileId -> Remote)
    requires ValidDateTime(now)
    modifies db
    ensures db.State() == SweepSpec(old(db.State()), now, trash, empty)
  {
    var ids := SelectByExpiry(db, FormatStored(now));
    ghost var purged := Purged(db.State(), now, trash, empty);
    ghost var removed: set<FileId> := {};
    var i := 0;
    while i < |ids|
      invariant 0 <= i <= |ids|
      invariant db.tracking == old(db.tracking)
      invariant db.files == old(db.files) - removed
      invariant forall x :: x in removed <==> x in purged && x in ids[..i]
    {
      var id := ids[i];
      assert ids[..i + 1] == ids[..i] + [id];
      if trash(id) == Status(200) && !empty(id).Failed? {
        var _ := db.DeleteFile(id);
        removed := removed + {id};
      }
      i := i + 1;
    }
    assert ids[..i] == ids;
    assert removed == purged;
  }
}
