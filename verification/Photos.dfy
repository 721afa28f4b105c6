/**
 * Attaching uploaded photos to an inspection item: every object is checked in storage before any
 * row is written, and a batch that fails takes its objects with it.
 */
module Photos {
  import opened Base

  // ----- Accepted media -----

  type Bytes = seq<bv8>

  datatype FileType = Photo | Video | Document

  datatype MediaKind = MediaKind(mime: string, extension: string, fileType: FileType)

  const MAX_PHOTO_BYTES: nat := 20 * 1024 * 1024
  const MAX_VIDEO_BYTES: nat := 500 * 1024 * 1024
  const MAX_FILES_PER_UPLOAD: nat := 10
  const SIGNATURE_PROBE_BYTES: nat := 16

  function MaxBytes(kind: MediaKind): nat {
    if kind.fileType == Video then MAX_VIDEO_BYTES else MAX_PHOTO_BYTES
  }

  const ACCEPTED := [
    MediaKind("image/jpeg", "jpg", Photo),
    MediaKind("image/jpg", "jpg", Photo),
    MediaKind("image/png", "png", Photo),
    MediaKind("image/gif", "gif", Photo),
    MediaKind("image/webp", "webp", Photo),
    MediaKind("image/heic", "heic", Photo),
    MediaKind("image/heif", "heif", Photo),
    MediaKind("video/mp4", "mp4", Video),
    MediaKind("video/quicktime", "mov", Video),
    MediaKind("video/webm", "webm", Video),
    MediaKind("video/x-msvideo", "avi", Video),
    MediaKind("video/avi", "avi", Video)]

  function KindIn(kinds: seq<MediaKind>, mime: string): Option<MediaKind> {
    if kinds == [] then None
    else if kinds[0].mime == mime then Some(kinds[0])
    else KindIn(kinds[1..], mime)
  }

  function KindFor(mime: string): Option<MediaKind> {
    KindIn(ACCEPTED, mime)
  }

  // ----- Signatures -----

  /** `want` stands in `head` at offset `at`; a short file does not match. */
  predicate HasAt(head: Bytes, at: nat, want: Bytes) {
    at + |want| <= |head| && head[at..at + |want|] == want
  }

  const FTYP: Bytes := [0x66, 0x74, 0x79, 0x70]
  const RIFF: Bytes := [0x52, 0x49, 0x46, 0x46]

  predicate IsHeifBrand(head: Bytes) {
    || HasAt(head, 8, [0x68, 0x65, 0x69, 0x63]) // heic
    || HasAt(head, 8, [0x68, 0x65, 0x69, 0x78]) // heix
    || HasAt(head, 8, [0x68, 0x65, 0x76, 0x63]) // hevc
    || HasAt(head, 8, [0x68, 0x65, 0x76, 0x78]) // hevx
    || HasAt(head, 8, [0x6d, 0x69, 0x66, 0x31]) // mif1
    || HasAt(head, 8, [0x6d, 0x73, 0x66, 0x31]) // msf1
  }

  predicate SignatureMatches(mime: string, head: Bytes) {
    match mime
    case "image/jpeg" => HasAt(head, 0, [0xff, 0xd8, 0xff])
    case "image/jpg" => HasAt(head, 0, [0xff, 0xd8, 0xff])
    case "image/png" => HasAt(head, 0, [0x89, 0x50, 0x4e, 0x47, 0x0d, 0x0a, 0x1a, 0x0a])
    case "image/gif" => HasAt(head, 0, [0x47, 0x49, 0x46, 0x38])
    case "image/webp" => HasAt(head, 0, RIFF) && HasAt(head, 8, [0x57, 0x45, 0x42, 0x50])
    case "image/heic" => HasAt(head, 4, FTYP) && IsHeifBrand(head)
    case "image/heif" => HasAt(head, 4, FTYP) && IsHeifBrand(head)
    case "video/mp4" => HasAt(head, 4, FTYP)
    case "video/quicktime" => HasAt(head, 4, FTYP)
    case "video/webm" => HasAt(head, 0, [0x1a, 0x45, 0xdf, 0xa3])
    case "video/x-msvideo" => HasAt(head, 0, RIFF) && HasAt(head, 8, [0x41, 0x56, 0x49, 0x20])
    case "video/avi" => HasAt(head, 0, RIFF) && HasAt(head, 8, [0x41, 0x56, 0x49, 0x20])
    case _ => false
  }

  function Prefix(content: Bytes): Bytes {
    if |content| <= SIGNATURE_PROBE_BYTES then content else content[..SIGNATURE_PROBE_BYTES]
  }

  lemma PrefixKeepsBytes(content: Bytes, at: nat, want: Bytes)
    requires at + |want| <= SIGNATURE_PROBE_BYTES
    ensures HasAt(Prefix(content), at, want) <==> HasAt(content, at, want)
  {
    if at + |want| <= |content| {
      assert Prefix(content)[at..at + |want|] == content[at..at + |want|];
    }
  }

  /** The ranged read settles the type as surely as reading the whole object would. */
  lemma ProbeIsEnough(mime: string, content: Bytes)
    ensures SignatureMatches(mime, Prefix(content)) <==> SignatureMatches(mime, content)
  {
    forall at: nat, want: Bytes | at + |want| <= SIGNATURE_PROBE_BYTES
      ensures HasAt(Prefix(content), at, want) <==> HasAt(content, at, want)
    {
      PrefixKeepsBytes(content, at, want);
    }
  }

  // ----- What is accepted, type by type -----

  predicate IsImage(mime: string) {
    mime in {"image/jpeg", "image/jpg", "image/png", "image/gif", "image/webp", "image/heic", "image/heif"}
  }

  predicate IsMovie(mime: string) {
    mime in {"video/mp4", "video/quicktime", "video/webm", "video/x-msvideo", "video/avi"}
  }

  lemma {:induction false} KindInSpec(kinds: seq<MediaKind>, mime: string)
    ensures match KindIn(kinds, mime)
      case None => forall k :: k in kinds ==> k.mime != mime
      case Some(k) => k in kinds && k.mime == mime
  {
    if kinds != [] && kinds[0].mime != mime {
      assert kinds == [kinds[0]] + kinds[1..];
      KindInSpec(kinds[1..], mime);
    }
  }

  /** The accepted types, and which of them are photos. */
  lemma KindsAre(mime: string)
    ensures KindFor(mime).Some? <==> IsImage(mime) || IsMovie(mime)
    ensures KindFor(mime).Some? ==> KindFor(mime).value.mime == mime
    ensures KindFor(mime).Some? ==> KindFor(mime).value.fileType == if IsImage(mime) then Photo else Video
  {
    KindInSpec(ACCEPTED, mime);
    NoTypeIsBoth(mime);
    if KindFor(mime).Some? { ListedType(KindFor(mime).value); }
    if IsImage(mime) { ImagesAreListed(mime); } else if IsMovie(mime) { MoviesAreListed(mime); }
  }

  lemma NoTypeIsBoth(mime: string)
    ensures !(IsImage(mime) && IsMovie(mime))
  {
    assert IsImage(mime) ==> mime[0] == 'i';
    assert IsMovie(mime) ==> mime[0] == 'v';
  }

  lemma ListedType(k: MediaKind)
    requires k in ACCEPTED
    ensures (k.fileType == Photo && IsImage(k.mime)) || (k.fileType == Video && IsMovie(k.mime))
  {
  }

  lemma ImagesAreListed(mime: string)
    requires IsImage(mime)
    ensures exists k :: k in ACCEPTED && k.mime == mime
  {
    assert forall i :: 0 <= i < |ACCEPTED| ==> ACCEPTED[i] in ACCEPTED;
    var i := if mime == "image/jpeg" then 0 else if mime == "image/jpg" then 1 else if mime == "image/png" then 2
      else if mime == "image/gif" then 3 else if mime == "image/webp" then 4 else if mime == "image/heic" then 5 else 6;
    assert ACCEPTED[i].mime == mime;
  }

  lemma MoviesAreListed(mime: string)
    requires IsMovie(mime)
    ensures exists k :: k in ACCEPTED && k.mime == mime
  {
    assert forall i :: 0 <= i < |ACCEPTED| ==> ACCEPTED[i] in ACCEPTED;
    var i := if mime == "video/mp4" then 7 else if mime == "video/quicktime" then 8
      else if mime == "video/webm" then 9 else if mime == "video/x-msvideo" then 10 else 11;
    assert ACCEPTED[i].mime == mime;
  }

  /** The bytes with which content of each type begins; what stands at the dots does not matter. */
  predicate Genuine(mime: string, c: Bytes) {
    match mime
    case "image/jpeg" => [0xff, 0xd8, 0xff] <= c
    case "image/jpg" => [0xff, 0xd8, 0xff] <= c
    case "image/png" => [0x89, 0x50, 0x4e, 0x47, 0x0d, 0x0a, 0x1a, 0x0a] <= c // \x89PNG\r\n\x1a\n
    case "image/gif" => [0x47, 0x49, 0x46, 0x38] <= c // GIF8
    case "image/webp" => |c| >= 12 && c[..4] == [0x52, 0x49, 0x46, 0x46] // RIFF....WEBP
      && c[8..12] == [0x57, 0x45, 0x42, 0x50]
    case "image/heic" => GenuineHeif(c)
    case "image/heif" => GenuineHeif(c)
    case "video/mp4" => |c| >= 8 && c[4..8] == [0x66, 0x74, 0x79, 0x70] // ....ftyp
    case "video/quicktime" => |c| >= 8 && c[4..8] == [0x66, 0x74, 0x79, 0x70]
    case "video/webm" => [0x1a, 0x45, 0xdf, 0xa3] <= c // the EBML header
    case "video/x-msvideo" => GenuineAvi(c)
    case "video/avi" => GenuineAvi(c)
    case _ => false
  }

  predicate GenuineHeif(c: Bytes) {
    && |c| >= 12 && c[4..8] == [0x66, 0x74, 0x79, 0x70] // ....ftyp and a brand
    && (c[8..12] == [0x68, 0x65, 0x69, 0x63] || c[8..12] == [0x68, 0x65, 0x69, 0x78]
        || c[8..12] == [0x68, 0x65, 0x76, 0x63] || c[8..12] == [0x68, 0x65, 0x76, 0x78]
        || c[8..12] == [0x6d, 0x69, 0x66, 0x31] || c[8..12] == [0x6d, 0x73, 0x66, 0x31])
  }

  predicate GenuineAvi(c: Bytes) {
    |c| >= 12 && c[..4] == [0x52, 0x49, 0x46, 0x46] && c[8..12] == [0x41, 0x56, 0x49, 0x20] // RIFF....AVI
  }

  lemma StartsWith(c: Bytes, want: Bytes)
    ensures HasAt(c, 0, want) <==> want <= c
  {
  }

  lemma ProbedContentIsGenuine(mime: string, content: Bytes)
    ensures SignatureMatches(mime, Prefix(content)) <==> Genuine(mime, content)
  {
    ProbeIsEnough(mime, content);
    StartsWith(content, [0xff, 0xd8, 0xff]);
    StartsWith(content, [0x89, 0x50, 0x4e, 0x47, 0x0d, 0x0a, 0x1a, 0x0a]);
    StartsWith(content, [0x47, 0x49, 0x46, 0x38]);
    StartsWith(content, [0x1a, 0x45, 0xdf, 0xa3]);
  }

  // ----- The service's world -----

  datatype Upload = Upload(storedName: string, originalName: string, mime: string)

  datatype Row = Row(clientKey: string, key: string, mime: string, originalName: string, storedName: string, size: nat)

  datatype Error =
    | NoFiles | TooManyFiles | NoDraft | StaleRevision | NoClientKey | ItemNotSaved
    | UnknownMime | NotUploaded | EmptyFile | TooLarge | WrongContent | NotAPhoto
    | StorageDown | DatabaseDown

  /** What can go wrong outside: storage failing to answer about a key, or failing to delete it. */
  datatype Outages = Outages(headFails: set<string>, readFails: set<string>, stuck: set<string>)

  type Store = map<string, Bytes>

  /** What the checks say about one upload, in the order they are made. */
  function Check(store: Store, out: Outages, key: string, mime: string): Result<nat, Error> {
    if KindFor(mime).None? then Err(UnknownMime)
    else if key in out.headFails then Err(StorageDown)
    else if key !in store then Err(NotUploaded)
    else if |store[key]| == 0 then Err(EmptyFile)
    else if |store[key]| > MaxBytes(KindFor(mime).value) then Err(TooLarge)
    else if key in out.readFails then Err(StorageDown)
    else if !SignatureMatches(KindFor(mime).value.mime, Prefix(store[key])) then Err(WrongContent)
    else Ok(|store[key]|)
  }

  /** The whole check of one upload to an inspection item, which takes photos only. */
  function PhotoCheck(store: Store, out: Outages, key: string, mime: string): Result<nat, Error> {
    if Check(store, out, key, mime).Ok? && KindFor(mime).value.fileType != Photo then Err(NotAPhoto)
    else Check(store, out, key, mime)
  }

  /** Content that was looked at and found wanting is removed; what could not be looked at is left. */
  predicate Rejects(e: Error) {
    e in {EmptyFile, TooLarge, WrongContent, NotAPhoto}
  }

  function Discarded(store: Store, out: Outages, keys: set<string>): Store {
    store - (keys - out.stuck)
  }

  /** Each inspection lives in the diary's key space. */
  function KeyFor(folder: string, u: Upload): string {
    folder + u.storedName
  }

  function KeysOf(folder: string, uploads: seq<Upload>): set<string> {
    set u | u in uploads :: KeyFor(folder, u)
  }

  function RowFor(folder: string, clientKey: string, u: Upload, size: nat): Row {
    Row(clientKey, KeyFor(folder, u), u.mime, u.originalName, u.storedName, size)
  }

  // ----- What that comes to -----

  /** Storage shows the object, its size is in the limit of its type, and its content is of that type. */
  predicate Fit(store: Store, out: Outages, key: string, mime: string) {
    && (IsImage(mime) || IsMovie(mime)) && key !in out.headFails && key !in out.readFails && key in store
    && 0 < |store[key]| <= (if IsImage(mime) then 20 else 500) * 1024 * 1024 && Genuine(mime, store[key])
  }

  lemma CheckedIff(store: Store, out: Outages, key: string, mime: string)
    ensures Check(store, out, key, mime).Ok? <==> Fit(store, out, key, mime)
    ensures PhotoCheck(store, out, key, mime).Ok? <==> Fit(store, out, key, mime) && IsImage(mime)
  {
    KindsAre(mime);
    if key in store { ProbedContentIsGenuine(mime, store[key]); }
  }

  /** The row records the upload: its names and type as sent, the item, and the object's own key and size. */
  predicate Records(row: Row, store: Store, folder: string, clientKey: string, u: Upload) {
    && row.originalName == u.originalName && row.storedName == u.storedName && row.mime == u.mime
    && row.clientKey == clientKey && row.key == folder + u.storedName
    && row.key in store && row.size == |store[row.key]| > 0
  }

  ghost predicate AllRecorded(added: seq<Row>, store: Store, folder: string, clientKey: string, uploads: seq<Upload>) {
    |added| == |uploads| && forall i :: 0 <= i < |uploads| ==> Records(added[i], store, folder, clientKey, uploads[i])
  }

  ghost predicate AllFit(store: Store, out: Outages, folder: string, uploads: seq<Upload>) {
    forall u :: u in uploads ==> IsImage(u.mime) && Fit(store, out, folder + u.storedName, u.mime)
  }

  lemma FirstBadIff(store: Store, out: Outages, folder: string, uploads: seq<Upload>)
    ensures FirstBad(store, out, folder, uploads, 0) == |uploads| <==> AllFit(store, out, folder, uploads)
  {
    forall u: Upload
      ensures PhotoCheck(store, out, KeyFor(folder, u), u.mime).Ok? <==>
        IsImage(u.mime) && Fit(store, out, folder + u.storedName, u.mime)
    {
      CheckedIff(store, out, KeyFor(folder, u), u.mime);
    }
    var bad := FirstBad(store, out, folder, uploads, 0);
    if bad < |uploads| {
      assert uploads[bad] in uploads;
    } else {
      forall u | u in uploads ensures PhotoCheck(store, out, KeyFor(folder, u), u.mime).Ok? {
        var j :| 0 <= j < |uploads| && uploads[j] == u;
        assert PhotoCheck(store, out, KeyFor(folder, uploads[j]), uploads[j].mime).Ok?;
      }
    }
  }

  lemma AcceptedAreRecorded(store: Store, out: Outages, folder: string, clientKey: string, uploads: seq<Upload>)
    requires FirstBad(store, out, folder, uploads, 0) == |uploads|
    ensures AllRecorded(RowsFor(store, folder, clientKey, uploads), store, folder, clientKey, uploads)
  {
    FirstBadIff(store, out, folder, uploads);
    forall i | 0 <= i < |uploads|
      ensures Records(RowsFor(store, folder, clientKey, uploads)[i], store, folder, clientKey, uploads[i])
    {
      assert uploads[i] in uploads;
    }
  }

  /** The repository's answer to a whole batch of rows. */
  datatype Reply = Saved | LostRace | Failed

  class AttachService {
    var store: Store
    var rows: seq<Row>

    /** A failed delete is logged and forgotten. */
    method Discard(out: Outages, key: string)
      modifies this`store
      ensures store == Discarded(old(store), out, {key})
      ensures store == if key in out.stuck then old(store) else old(store) - {key}
    {
      if key !in out.stuck {
        store := store - {key};
      }
      assert {key} - out.stuck == if key in out.stuck then {} else {key};
    }

    method DiscardAll(out: Outages, keys: seq<string>)
      modifies this`store
      ensures store == Discarded(old(store), out, Elements(keys))
    {
      assert store == Discarded(old(store), out, Elements(keys[..0]));
      for i := 0 to |keys|
        invariant store == Discarded(old(store), out, Elements(keys[..i]))
      {
        assert Elements(keys[..i + 1]) == Elements(keys[..i]) + {keys[i]} by {
          assert keys[..i + 1] == keys[..i] + [keys[i]];
        }
        DiscardedTwice(old(store), out, Elements(keys[..i]), {keys[i]});
        Discard(out, keys[i]);
      }
      assert keys[..|keys|] == keys;
    }

    method Verify(out: Outages, key: string, mime: string) returns (r: Result<nat, Error>)
      modifies this`store
      ensures r == Check(old(store), out, key, mime)
      ensures store == if r.Err? && Rejects(r.error) then Discarded(old(store), out, {key}) else old(store)
      ensures r.Ok? <==> Fit(old(store), out, key, mime)
    {
      CheckedIff(store, out, key, mime);
      var kind := KindFor(mime);
      if kind.None? {
        return Err(UnknownMime);
      }
      if key in out.headFails {
        return Err(StorageDown);
      }
      if key !in store {
        return Err(NotUploaded);
      }
      var size := |store[key]|;
      if size == 0 {
        Discard(out, key);
        return Err(EmptyFile);
      }
      if size > MaxBytes(kind.value) {
        Discard(out, key);
        return Err(TooLarge);
      }
      if key in out.readFails {
        return Err(StorageDown);
      }
      if !SignatureMatches(kind.value.mime, Prefix(store[key])) {
        Discard(out, key);
        return Err(WrongContent);
      }
      return Ok(size);
    }

    /**
     * `draft` is the revision of the caller's draft, if there is one, and `items` the client keys
     * saved on it; `reply` is what the repository answers once it is handed the rows.
     */
    method AttachPhotos(out: Outages, folder: string, draft: Option<int>, items: set<string>, clientKey: string,
        trimmedKey: string, expectedRevision: int, uploads: seq<Upload>, reply: Reply)
      returns (r: Result<(), Error>)
      modifies this
      ensures var early := Precheck(draft, items, trimmedKey, expectedRevision, |uploads|);
        var bad := FirstBad(old(store), out, folder, uploads, 0);
        if early.Some? then r == Err(early.value) && store == old(store) && rows == old(rows)
        else if bad < |uploads| then
          && r == Err(FaultOf(old(store), out, folder, uploads, bad)) && rows == old(rows)
          && store == AfterFault(old(store), out, folder, uploads, bad)
        else if reply != Saved then
          && r == Err(if reply == LostRace then StaleRevision else DatabaseDown)
          && rows == old(rows)
          && store == Discarded(old(store), out, KeysOf(folder, uploads))
        else
          && r.Ok? && store == old(store)
          && rows == old(rows) + RowsFor(old(store), folder, clientKey, uploads)
      ensures var call := Attempt(out, folder, draft, items, clientKey, trimmedKey, expectedRevision, uploads, reply);
        store == old(store) - Discards(old(store), call) && rows == old(rows) + Attaches(old(store), call)
      ensures r.Ok? <==>
        && 0 < |uploads| <= 10 && draft == Some(expectedRevision) && trimmedKey != "" && trimmedKey in items
        && AllFit(old(store), out, folder, uploads) && reply == Saved
      ensures if r.Err? then rows == old(rows) else
        && store == old(store) && |rows| == |old(rows)| + |uploads| && old(rows) <= rows
        && AllRecorded(rows[|old(rows)|..], store, folder, clientKey, uploads)
    {
      if uploads == [] {
        return Err(NoFiles);
      }
      if |uploads| > MAX_FILES_PER_UPLOAD {
        return Err(TooManyFiles);
      }
      if draft.None? {
        return Err(NoDraft);
      }
      if draft.value != expectedRevision {
        return Err(StaleRevision);
      }
      if trimmedKey == "" {
        return Err(NoClientKey);
      }
      if trimmedKey !in items {
        return Err(ItemNotSaved);
      }

      var checked, keys := VerifyAll(out, folder, clientKey, uploads);
      if checked.Err? {
        return Err(checked.error);
      }
      r := Conclude(out, checked.value, keys, reply);
    }

    /** What the repository's answer to the checked batch comes to. */
    method Conclude(out: Outages, records: seq<Row>, keys: seq<string>, reply: Reply) returns (r: Result<(), Error>)
      modifies this
      ensures if reply == Saved then r.Ok? else r == Err(if reply == LostRace then StaleRevision else DatabaseDown)
      ensures store == if reply == Saved then old(store) else Discarded(old(store), out, Elements(keys))
      ensures rows == if reply == Saved then old(rows) + records else old(rows)
      ensures reply == Saved ==> old(rows) <= rows && rows[|old(rows)|..] == records
    {
      match reply
      case Saved =>
        assert (rows + records)[|rows|..] == records;
        rows := rows + records;
        return Ok(());
      case LostRace =>
        DiscardAll(out, keys);
        return Err(StaleRevision);
      case Failed =>
        DiscardAll(out, keys);
        return Err(DatabaseDown);
    }

    /** One upload of a batch in which `accepted` passed before it: if it is refused they go too. */
    method VerifyPhoto(out: Outages, key: string, mime: string, accepted: seq<string>) returns (r: Result<nat, Error>)
      modifies this`store
      ensures r == PhotoCheck(old(store), out, key, mime)
      ensures store ==
        if r.Ok? then old(store)
        else Discarded(old(store), out, if Rejects(r.error) then Elements(accepted) + {key} else Elements(accepted))
    {
      ghost var before := store;
      r := Verify(out, key, mime);
      if r.Err? {
        DiscardAll(out, accepted);
        DiscardedTwice(before, out, {key}, Elements(accepted));
        assert {key} + Elements(accepted) == Elements(accepted) + {key};
      } else if KindFor(mime).value.fileType != Photo {
        DiscardAll(out, accepted);
        Discard(out, key);
        DiscardedTwice(before, out, Elements(accepted), {key});
        r := Err(NotAPhoto);
      }
    }

    /** Checks the uploads in order; the first bad one takes the objects accepted before it along. */
    method VerifyAll(out: Outages, folder: string, clientKey: string, uploads: seq<Upload>)
      returns (r: Result<seq<Row>, Error>, keys: seq<string>)
      modifies this`store
      ensures var bad := FirstBad(old(store), out, folder, uploads, 0);
        if bad < |uploads| then
          && r == Err(FaultOf(old(store), out, folder, uploads, bad))
          && store == AfterFault(old(store), out, folder, uploads, bad)
        else
          && r == Ok(RowsFor(old(store), folder, clientKey, uploads)) && store == old(store)
          && Elements(keys) == KeysOf(folder, uploads)
      ensures r.Ok? <==> AllFit(old(store), out, folder, uploads)
      ensures r.Ok? ==> store == old(store) && AllRecorded(r.value, store, folder, clientKey, uploads)
    {
      FirstBadIff(store, out, folder, uploads);
      ghost var before := store;
      var records: seq<Row> := [];
      keys := [];
      assert uploads[..0] == [];
      for i := 0 to |uploads|
        invariant store == before
        invariant AcceptedSoFar(before, out, folder, clientKey, uploads, i, keys, records)
      {
        var key := KeyFor(folder, uploads[i]);
        var verified := VerifyPhoto(out, key, uploads[i].mime, keys);
        if verified.Err? {
          FaultFound(before, out, folder, clientKey, uploads, i, keys, records);
          return Err(verified.error), keys;
        }
        OneMoreAccepted(before, out, folder, clientKey, uploads, i, keys, records);
        records := records + [RowFor(folder, clientKey, uploads[i], verified.value)];
        keys := keys + [key];
      }
      assert uploads[..|uploads|] == uploads;
      AcceptedAreRecorded(before, out, folder, clientKey, uploads);
      r := Ok(records);
    }
  }

  /** The first `i` uploads passed; `keys` and `records` are theirs. */
  ghost predicate AcceptedSoFar(store: Store, out: Outages, folder: string, clientKey: string, uploads: seq<Upload>,
      i: nat, keys: seq<string>, records: seq<Row>)
  {
    && i <= |uploads|
    && FirstBad(store, out, folder, uploads, 0) == FirstBad(store, out, folder, uploads, i)
    && Elements(keys) == KeysOf(folder, uploads[..i])
    && records == RowsFor(store, folder, clientKey, uploads[..i])
  }

  lemma OneMoreAccepted(store: Store, out: Outages, folder: string, clientKey: string, uploads: seq<Upload>,
      i: nat, keys: seq<string>, records: seq<Row>)
    requires i < |uploads| && AcceptedSoFar(store, out, folder, clientKey, uploads, i, keys, records)
    requires PhotoCheck(store, out, KeyFor(folder, uploads[i]), uploads[i].mime).Ok?
    ensures var key := KeyFor(folder, uploads[i]);
      var size := PhotoCheck(store, out, key, uploads[i].mime).value;
      AcceptedSoFar(store, out, folder, clientKey, uploads, i + 1, keys + [key],
        records + [RowFor(folder, clientKey, uploads[i], size)])
  {
    KeysGrow(folder, uploads, i, keys);
    RowsGrow(store, folder, clientKey, uploads, i);
  }

  lemma FaultFound(store: Store, out: Outages, folder: string, clientKey: string, uploads: seq<Upload>,
      i: nat, keys: seq<string>, records: seq<Row>)
    requires i < |uploads| && AcceptedSoFar(store, out, folder, clientKey, uploads, i, keys, records)
    requires PhotoCheck(store, out, KeyFor(folder, uploads[i]), uploads[i].mime).Err?
    ensures FirstBad(store, out, folder, uploads, 0) == i
    ensures var key := KeyFor(folder, uploads[i]);
      var rejected := Rejects(PhotoCheck(store, out, key, uploads[i].mime).error);
      AfterFault(store, out, folder, uploads, i) ==
        Discarded(store, out, if rejected then Elements(keys) + {key} else Elements(keys))
  {
    KeysGrow(folder, uploads, i, keys);
  }

  function Elements(keys: seq<string>): set<string> {
    set k | k in keys
  }

  lemma DiscardedTwice(store: Store, out: Outages, a: set<string>, b: set<string>)
    ensures Discarded(Discarded(store, out, a), out, b) == Discarded(store, out, a + b)
  {
    assert (a + b) - out.stuck == (a - out.stuck) + (b - out.stuck);
  }

  lemma KeysGrow(folder: string, uploads: seq<Upload>, i: nat, keys: seq<string>)
    requires i < |uploads| && Elements(keys) == KeysOf(folder, uploads[..i])
    ensures Elements(keys + [KeyFor(folder, uploads[i])]) == KeysOf(folder, uploads[..i + 1])
    ensures KeysOf(folder, uploads[..i + 1]) == Elements(keys) + {KeyFor(folder, uploads[i])}
  {
    var key := KeyFor(folder, uploads[i]);
    assert Elements(keys + [key]) == Elements(keys) + {key} by {
      assert key in keys + [key];
    }
    KeysOfSplits(folder, uploads[..i], uploads[i]);
    assert uploads[..i + 1] == uploads[..i] + [uploads[i]];
  }

  lemma KeysOfSplits(folder: string, before: seq<Upload>, u: Upload)
    ensures KeysOf(folder, before + [u]) == KeysOf(folder, before) + {KeyFor(folder, u)}
  {
    forall v | v in before + [u] ensures KeyFor(folder, v) in KeysOf(folder, before) + {KeyFor(folder, u)} {
    }
    assert u in before + [u];
  }

  lemma RowsGrow(store: Store, folder: string, clientKey: string, uploads: seq<Upload>, i: nat)
    requires i < |uploads|
    ensures var key := KeyFor(folder, uploads[i]);
      RowsFor(store, folder, clientKey, uploads[..i + 1]) ==
        RowsFor(store, folder, clientKey, uploads[..i])
        + [RowFor(folder, clientKey, uploads[i], if key in store then |store[key]| else 0)]
  {
    assert uploads[..i + 1] == uploads[..i] + [uploads[i]];
    assert forall j :: 0 <= j < i ==> uploads[..i + 1][j] == uploads[..i][j];
  }

  /** Why upload `bad` is refused. */
  function FaultOf(store: Store, out: Outages, folder: string, uploads: seq<Upload>, bad: nat): Error
    requires bad < |uploads| && PhotoCheck(store, out, KeyFor(folder, uploads[bad]), uploads[bad].mime).Err?
  {
    PhotoCheck(store, out, KeyFor(folder, uploads[bad]), uploads[bad].mime).error
  }

  /** Storage after upload `bad` is refused: without the objects before it, or its own if that was looked at. */
  function AfterFault(store: Store, out: Outages, folder: string, uploads: seq<Upload>, bad: nat): Store
    requires bad < |uploads| && PhotoCheck(store, out, KeyFor(folder, uploads[bad]), uploads[bad].mime).Err?
  {
    Discarded(store, out,
      KeysOf(folder, if Rejects(FaultOf(store, out, folder, uploads, bad)) then uploads[..bad + 1] else uploads[..bad]))
  }

  function Precheck(draft: Option<int>, items: set<string>, trimmedKey: string, expected: int, count: nat)
    : Option<Error>
  {
    if count == 0 then Some(NoFiles)
    else if count > MAX_FILES_PER_UPLOAD then Some(TooManyFiles)
    else if draft.None? then Some(NoDraft)
    else if draft.value != expected then Some(StaleRevision)
    else if trimmedKey == "" then Some(NoClientKey)
    else if trimmedKey !in items then Some(ItemNotSaved)
    else None
  }

  /** The first upload from `i` on that fails its check, or the number of uploads if none does. */
  function FirstBad(store: Store, out: Outages, folder: string, uploads: seq<Upload>, i: nat): (bad: nat)
    requires i <= |uploads|
    ensures i <= bad <= |uploads|
    ensures bad < |uploads| ==> PhotoCheck(store, out, KeyFor(folder, uploads[bad]), uploads[bad].mime).Err?
    ensures forall j :: i <= j < bad ==> PhotoCheck(store, out, KeyFor(folder, uploads[j]), uploads[j].mime).Ok?
    decreases |uploads| - i
  {
    if i == |uploads| || PhotoCheck(store, out, KeyFor(folder, uploads[i]), uploads[i].mime).Err? then i
    else FirstBad(store, out, folder, uploads, i + 1)
  }

  /** One row per upload, in order, with the size storage reports. */
  function RowsFor(store: Store, folder: string, clientKey: string, uploads: seq<Upload>): seq<Row> {
    seq(|uploads|, (i: int) requires 0 <= i < |uploads| =>
      var key := KeyFor(folder, uploads[i]);
      RowFor(folder, clientKey, uploads[i], if key in store then |store[key]| else 0))
  }

  // ----- All or nothing -----

  /** Every upload of an accepted batch is a photo: present, not empty, within the limit, and what it claims to be. */
  lemma AcceptedBatchIsPhotos(store: Store, out: Outages, folder: string, uploads: seq<Upload>)
    requires FirstBad(store, out, folder, uploads, 0) == |uploads|
    ensures forall u :: u in uploads ==>
      var key := KeyFor(folder, u);
      && key in store && 0 < |store[key]| <= MAX_PHOTO_BYTES
      && KindFor(u.mime).Some? && KindFor(u.mime).value.fileType == Photo
      && SignatureMatches(u.mime, store[key])
  {
    forall u | u in uploads
      ensures var key := KeyFor(folder, u);
        && key in store && 0 < |store[key]| <= MAX_PHOTO_BYTES
        && KindFor(u.mime).Some? && KindFor(u.mime).value.fileType == Photo
        && SignatureMatches(u.mime, store[key])
    {
      var key := KeyFor(folder, u);
      var j :| 0 <= j < |uploads| && uploads[j] == u;
      assert PhotoCheck(store, out, KeyFor(folder, uploads[j]), uploads[j].mime).Ok?;
      KindIsItsOwn(ACCEPTED, u.mime);
      ProbeIsEnough(u.mime, store[key]);
    }
  }

  lemma {:induction false} KindIsItsOwn(kinds: seq<MediaKind>, mime: string)
    requires KindIn(kinds, mime).Some?
    ensures KindIn(kinds, mime).value.mime == mime
  {
    if kinds[0].mime != mime {
      KindIsItsOwn(kinds[1..], mime);
    }
  }

  /**
   * A batch that fails at upload `bad` leaves none of the objects accepted before it, leaves the
   * refused object only if storage would not show it, and touches no object outside the batch.
   * Deletes that fail are the only exception.
   */
  lemma FailedBatchLeavesNothing(store: Store, out: Outages, folder: string, uploads: seq<Upload>, bad: nat,
      key: string)
    requires bad == FirstBad(store, out, folder, uploads, 0) < |uploads|
    ensures var after, refused := AfterFault(store, out, folder, uploads, bad), KeyFor(folder, uploads[bad]);
      && (key in after ==> key in store && after[key] == store[key])
      && (key in KeysOf(folder, uploads[..bad]) ==> (key in after <==> key in out.stuck))
      && (key == refused && key !in KeysOf(folder, uploads[..bad]) ==>
            (key in after <==>
              key in store && (key in out.stuck || !Rejects(FaultOf(store, out, folder, uploads, bad)))))
      && (key !in KeysOf(folder, uploads[..bad + 1]) ==> (key in after <==> key in store))
  {
    KeysOfSplits(folder, uploads[..bad], uploads[bad]);
    assert uploads[..bad + 1] == uploads[..bad] + [uploads[bad]];
    if key in KeysOf(folder, uploads[..bad]) { AcceptedIsStored(store, out, folder, uploads, bad, key); }
  }

  lemma AcceptedIsStored(store: Store, out: Outages, folder: string, uploads: seq<Upload>, bad: nat, key: string)
    requires bad == FirstBad(store, out, folder, uploads, 0) && key in KeysOf(folder, uploads[..bad])
    ensures key in store
  {
    var u :| u in uploads[..bad] && KeyFor(folder, u) == key;
    var j :| 0 <= j < bad && uploads[j] == u;
    assert PhotoCheck(store, out, KeyFor(folder, uploads[j]), uploads[j].mime).Ok?;
  }

  /** The only refusals that leave an object behind are those made without looking at it. */
  lemma RefusedUnseen(store: Store, out: Outages, key: string, mime: string)
    requires PhotoCheck(store, out, key, mime).Err?
    ensures !Rejects(PhotoCheck(store, out, key, mime).error) <==>
      KindFor(mime).None? || key in out.headFails || key !in store
      || (0 < |store[key]| <= MaxBytes(KindFor(mime).value) && key in out.readFails)
  {
  }

  // ----- Saved rows keep their objects, over several calls -----

  /** One call to attach photos, with everything it depends on outside storage. */
  datatype Attempt = Attempt(out: Outages, folder: string, draft: Option<int>, items: set<string>, clientKey: string,
    trimmedKey: string, expectedRevision: int, uploads: seq<Upload>, reply: Reply)

  /** The keys a call takes out of storage. */
  function Discards(store: Store, c: Attempt): set<string> {
    var bad := FirstBad(store, c.out, c.folder, c.uploads, 0);
    if Precheck(c.draft, c.items, c.trimmedKey, c.expectedRevision, |c.uploads|).Some? then {}
    else if bad < |c.uploads| then
      var rejected := Rejects(FaultOf(store, c.out, c.folder, c.uploads, bad));
      KeysOf(c.folder, if rejected then c.uploads[..bad + 1] else c.uploads[..bad]) - c.out.stuck
    else if c.reply != Saved then KeysOf(c.folder, c.uploads) - c.out.stuck
    else {}
  }

  /** The rows a call saves. */
  function Attaches(store: Store, c: Attempt): seq<Row> {
    if Precheck(c.draft, c.items, c.trimmedKey, c.expectedRevision, |c.uploads|).None?
       && FirstBad(store, c.out, c.folder, c.uploads, 0) == |c.uploads| && c.reply == Saved
    then RowsFor(store, c.folder, c.clientKey, c.uploads)
    else []
  }

  datatype World = World(store: Store, rows: seq<Row>)

  /** Clients put objects into storage and ask for them to be attached. */
  datatype Action = Put(key: string, content: Bytes) | Attach(call: Attempt)

  function Next(w: World, a: Action): World {
    match a
    case Put(key, content) => w.(store := w.store[key := content])
    case Attach(c) => World(w.store - Discards(w.store, c), w.rows + Attaches(w.store, c))
  }

  ghost predicate Backed(w: World) {
    forall r :: r in w.rows ==> r.key in w.store
  }

  lemma AttachedAreBacked(store: Store, c: Attempt)
    ensures forall r :: r in Attaches(store, c) ==> r.key in store && r.key !in Discards(store, c)
  {
    if Attaches(store, c) != [] {
      AcceptedBatchIsPhotos(store, c.out, c.folder, c.uploads);
      forall r | r in Attaches(store, c) ensures r.key in store {
        var i :| 0 <= i < |c.uploads| && Attaches(store, c)[i] == r;
        assert c.uploads[i] in c.uploads;
      }
    }
  }

  lemma StepBacked(w: World, c: Attempt)
    requires Backed(w)
    ensures Backed(Next(w, Attach(c))) <==> forall r :: r in w.rows ==> r.key !in Discards(w.store, c)
  {
    AttachedAreBacked(w.store, c);
    var v := Next(w, Attach(c));
    assert forall r :: r in v.rows <==> r in w.rows || r in Attaches(w.store, c);
    assert forall k :: k in v.store <==> k in w.store && k !in Discards(w.store, c);
  }

  // ----- Told before the call -----

  const CALM := Outages({}, {}, {})

  /** The same request, with what else goes wrong and what the repository answers left to circumstance. */
  function Meeting(c: Attempt, out: Outages, reply: Reply): Attempt {
    c.(out := out, reply := reply)
  }

  /** The first upload that storage, answering every question, would have refused. */
  function CalmBad(store: Store, c: Attempt): (bad: nat)
    ensures bad <= |c.uploads|
  {
    FirstBad(store, CALM, c.folder, c.uploads, 0)
  }

  /** Upload `j` goes if the batch fails: it is accepted before the first bad one, or is that one and looked at. */
  predicate AtRisk(store: Store, c: Attempt, j: nat)
    requires j < |c.uploads|
  {
    j < CalmBad(store, c)
    || (j == CalmBad(store, c) && Rejects(FaultOf(store, CALM, c.folder, c.uploads, j)))
  }

  ghost predicate NamesSaved(w: World, folder: string, u: Upload) {
    exists r :: r in w.rows && r.key == KeyFor(folder, u)
  }

  /** A request that gets as far as storage and puts the object of a saved row at risk. */
  ghost predicate Exposed(w: World, c: Attempt) {
    && Precheck(c.draft, c.items, c.trimmedKey, c.expectedRevision, |c.uploads|).None?
    && exists j: nat :: j < |c.uploads| && NamesSaved(w, c.folder, c.uploads[j]) && AtRisk(w.store, c, j)
  }

  /** Outages only add refusals, and never one that makes the check discard the object. */
  lemma OutagesOnlyRefuse(store: Store, out: Outages, key: string, mime: string)
    ensures var calm, check := PhotoCheck(store, CALM, key, mime), PhotoCheck(store, out, key, mime);
      check == calm || check == Err(StorageDown)
  {
  }

  lemma OutagesFailEarlier(store: Store, out: Outages, c: Attempt)
    ensures FirstBad(store, out, c.folder, c.uploads, 0) <= CalmBad(store, c)
  {
    var bad := CalmBad(store, c);
    if bad < |c.uploads| {
      OutagesOnlyRefuse(store, out, KeyFor(c.folder, c.uploads[bad]), c.uploads[bad].mime);
    }
  }

  /** Whatever happens, a call takes out nothing but uploads at risk. */
  lemma DiscardsAreAtRisk(store: Store, c: Attempt, key: string) returns (j: nat)
    requires key in Discards(store, c)
    ensures Precheck(c.draft, c.items, c.trimmedKey, c.expectedRevision, |c.uploads|).None?
    ensures j < |c.uploads| && KeyFor(c.folder, c.uploads[j]) == key && AtRisk(store, c, j)
  {
    var bad := FirstBad(store, c.out, c.folder, c.uploads, 0);
    OutagesFailEarlier(store, c.out, c);
    var last := if bad < |c.uploads| && Rejects(FaultOf(store, c.out, c.folder, c.uploads, bad)) then bad + 1 else bad;
    assert c.uploads[..|c.uploads|] == c.uploads;
    var u :| u in c.uploads[..last] && KeyFor(c.folder, u) == key;
    j :| 0 <= j < last && c.uploads[j] == u;
    if j == bad {
      OutagesOnlyRefuse(store, c.out, key, u.mime);
    }
  }

  /** If storage answers everything and the repository fails, all uploads at risk go. */
  lemma AtRiskAreDiscarded(store: Store, c: Attempt, j: nat)
    requires Precheck(c.draft, c.items, c.trimmedKey, c.expectedRevision, |c.uploads|).None?
    requires j < |c.uploads| && AtRisk(store, c, j)
    ensures KeyFor(c.folder, c.uploads[j]) in Discards(store, Meeting(c, CALM, Failed))
  {
    var bad := CalmBad(store, c);
    assert j < bad ==> c.uploads[..bad][j] == c.uploads[j];
    if bad < |c.uploads| {
      assert c.uploads[..bad + 1][j] == c.uploads[j];
    } else {
      assert c.uploads[j] in c.uploads;
    }
  }

  /** A request leaves every saved row its object, whatever happens during it, exactly if it is not exposed. */
  lemma AlwaysBackedIffNotExposed(w: World, c: Attempt)
    requires Backed(w)
    ensures (forall out, reply :: Backed(Next(w, Attach(Meeting(c, out, reply))))) <==> !Exposed(w, c)
  {
    if Exposed(w, c) {
      var j: nat :| j < |c.uploads| && NamesSaved(w, c.folder, c.uploads[j]) && AtRisk(w.store, c, j);
      AtRiskAreDiscarded(w.store, c, j);
      StepBacked(w, Meeting(c, CALM, Failed));
      assert !Backed(Next(w, Attach(Meeting(c, CALM, Failed))));
    } else {
      forall out, reply ensures Backed(Next(w, Attach(Meeting(c, out, reply)))) {
        NotExposedStep(w, c, out, reply);
      }
    }
  }

  lemma NotExposedStep(w: World, c: Attempt, out: Outages, reply: Reply)
    requires Backed(w) && !Exposed(w, c)
    ensures Backed(Next(w, Attach(Meeting(c, out, reply))))
  {
    forall r | r in w.rows ensures r.key !in Discards(w.store, Meeting(c, out, reply)) {
      LosingMeansExposed(w, c, out, reply, r);
    }
    StepBacked(w, Meeting(c, out, reply));
  }

  lemma LosingMeansExposed(w: World, c: Attempt, out: Outages, reply: Reply, r: Row)
    ensures r in w.rows && r.key in Discards(w.store, Meeting(c, out, reply)) ==> Exposed(w, c)
  {
    if r in w.rows && r.key in Discards(w.store, Meeting(c, out, reply)) {
      var j := DiscardsAreAtRisk(w.store, Meeting(c, out, reply), r.key);
      assert NamesSaved(w, c.folder, c.uploads[j]) && AtRisk(w.store, c, j);
    }
  }

  /** Whatever happens during each of these requests, every saved row has its object at every moment. */
  ghost predicate AlwaysBacked(w: World, asked: seq<Action>)
    decreases |asked|
  {
    Backed(w) &&
    (asked == [] ||
     match asked[0]
     case Put(_, _) => AlwaysBacked(Next(w, asked[0]), asked[1..])
     case Attach(c) => forall out, reply :: AlwaysBacked(Next(w, Attach(Meeting(c, out, reply))), asked[1..]))
  }

  /** Whatever happens, no request is exposed at the moment it is made. */
  ghost predicate NeverExposed(w: World, asked: seq<Action>)
    decreases |asked|
  {
    asked == [] ||
    match asked[0]
    case Put(_, _) => NeverExposed(Next(w, asked[0]), asked[1..])
    case Attach(c) =>
      !Exposed(w, c) && forall out, reply :: NeverExposed(Next(w, Attach(Meeting(c, out, reply))), asked[1..])
  }

  /** Over any run of uploads and requests: saved rows are sure to keep their objects exactly if none is exposed. */
  lemma {:induction false} RunsKeepBackedIff(w: World, asked: seq<Action>)
    requires Backed(w)
    ensures AlwaysBacked(w, asked) <==> NeverExposed(w, asked)
    decreases |asked|
  {
    if asked != [] {
      var rest := asked[1..];
      match asked[0]
      case Put(_, _) => RunsKeepBackedIff(Next(w, asked[0]), rest);
      case Attach(c) =>
        AlwaysBackedIffNotExposed(w, c);
        forall out, reply | Backed(Next(w, Attach(Meeting(c, out, reply))))
          ensures AlwaysBacked(Next(w, Attach(Meeting(c, out, reply))), rest) <==>
            NeverExposed(Next(w, Attach(Meeting(c, out, reply))), rest)
        {
          RunsKeepBackedIff(Next(w, Attach(Meeting(c, out, reply))), rest);
        }
        forall out, reply ensures AlwaysBacked(Next(w, Attach(Meeting(c, out, reply))), rest) ==>
            Backed(Next(w, Attach(Meeting(c, out, reply))))
        {
        }
    }
  }

  /** In particular requests that only name new objects are never exposed. */
  lemma NewNamesAreSafe(w: World, c: Attempt)
    requires forall u :: u in c.uploads ==> !NamesSaved(w, c.folder, u)
    ensures !Exposed(w, c)
  {
  }

  /**
   * A name already attached is named again, together with one that was never uploaded: the batch
   * fails, and the saved row's object goes with it.
   */
  lemma SavedObjectIsLost() returns (w: World, c: Attempt)
    ensures Backed(w) && |w.rows| == 1 && c.out.stuck == {}
    ensures !Backed(Next(w, Attach(c)))
    ensures exists first: Attempt :: w == Next(Next(World(map[], []), Put("a", [0xff, 0xd8, 0xff])), Attach(first))
  {
    var jpeg: Bytes := [0xff, 0xd8, 0xff];
    var calm := Outages({}, {}, {});
    var a, b := Upload("a", "a.jpg", "image/jpeg"), Upload("b", "b.jpg", "image/jpeg");
    var first := Attempt(calm, "", Some(0), {"item"}, "item", "item", 0, [a], Saved);
    var v := World(map["a" := jpeg], []);
    assert v == Next(World(map[], []), Put("a", jpeg));
    assert "" + "a" == "a" && "" + "b" == "b";
    JpegPasses(v.store, calm);
    assert FirstBad(v.store, calm, "", [a], 0) == 1;
    w := Next(v, Attach(first));
    assert Attaches(v.store, first)[0].key == "a";

    c := Attempt(calm, "", Some(1), {"item"}, "item", "item", 1, [a, b], Saved);
    assert FirstBad(v.store, calm, "", [a, b], 0) == 1;
    assert [a, b][..1] == [a];
    assert KeyFor("", a) in KeysOf("", [a]);
    assert w.rows[0].key == "a";
  }

  lemma JpegPasses(store: Store, calm: Outages)
    requires store == map["a" := [0xff, 0xd8, 0xff]] && calm == Outages({}, {}, {})
    ensures PhotoCheck(store, calm, "a", "image/jpeg").Ok?
    ensures PhotoCheck(store, calm, "b", "image/jpeg") == Err(NotUploaded)
  {
    assert ACCEPTED[0].mime == "image/jpeg";
    assert KindFor("image/jpeg") == Some(ACCEPTED[0]);
  }
}
