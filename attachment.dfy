/**
 * Attachments: the `attachment` table keyed by (realm, id, filename, version),
 * the `Attachment` model object with its existence test, version numbering,
 * storage paths and the checks of delete, insert and reparent, the upload
 * validation of the attachment module, the legacy permission policy and the
 * `realm:id` argument of the admin commands.
 */
module Attachments {
  import opened Wrappers
  import opened Strings

  /** The directory, below the environment, that holds archived versions. */
  const ArchiveDir: string := "archive"

  /** The directory, below the environment, that holds the current files. */
  const AttachmentsDir: string := "attachments"

  // ---------------------------------------------------------------------------
  // The attachment table

  /** The primary key of a row: the parent's realm and id, the file name and the version. */
  datatype Key = Key(realm: string, id: string, filename: string, version: int)

  /** The other columns of a row (NULL is None). */
  datatype Data = Data(size: Option<int>, time: Option<int>, description: Option<string>,
                       author: Option<string>, ipnr: Option<string>, status: Option<string>)

  /** The table: one `Data` per key, so no two rows share a key. */
  type Table = map<Key, Data>

  predicate SameFile(k: Key, realm: string, id: string, filename: string) {
    k.realm == realm && k.id == id && k.filename == filename
  }

  /** The stored versions of one file of one parent. */
  function Versions(rows: Table, realm: string, id: string, filename: string): (vs: set<int>)
    ensures forall v :: v in vs <==> Key(realm, id, filename, v) in rows
  {
    set k | k in rows && SameFile(k, realm, id, filename) :: k.version
  }

  /** The largest element of a non-empty finite set. */
  function SetMax(s: set<int>): (m: int)
    requires s != {}
    ensures m in s && forall x :: x in s ==> x <= m
  {
    MaxExists(s);
    var m :| m in s && forall x :: x in s ==> x <= m;
    m
  }

  lemma EmptyOrElement(s: set<int>)
    ensures s == {} || exists y :: y in s
  {
    if !exists y :: y in s {
      assert s == {};
    }
  }

  lemma MaxExists(s: set<int>)
    requires s != {}
    ensures exists m :: m in s && forall x :: x in s ==> x <= m
  {
    EmptyOrElement(s);
    var y :| y in s;
    if s != {y} {
      var rest := s - {y};
      MaxExists(rest);
      var m :| m in rest && forall x :: x in rest ==> x <= m;
      var top := if y > m then y else m;
      forall x | x in s
        ensures x <= top
      {
        if x != y {
          assert x in rest;
        }
      }
      assert top in s;
    } else {
      assert forall x :: x in s ==> x <= y;
    }
  }

  /** `MAX(version)` over one file's rows, NULL when it has none. */
  function MaxVersion(rows: Table, realm: string, id: string, filename: string): (m: Option<int>)
    ensures m.None? <==> Versions(rows, realm, id, filename) == {}
    ensures m.Some? ==> Key(realm, id, filename, m.value) in rows
    ensures m.Some? ==> forall v :: Key(realm, id, filename, v) in rows ==> v <= m.value
  {
    var vs := Versions(rows, realm, id, filename);
    if vs == {} then None else Some(SetMax(vs))
  }

  /** `_next_version`: `COALESCE(MAX(version), 0) + 1` over the file's rows. */
  function NextVersion(rows: Table, realm: string, id: string, filename: string): (v: int)
  {
    match MaxVersion(rows, realm, id, filename)
    case None => 1
    case Some(m) => m + 1
  }

  /**
   * The next version is above every stored version of the file, so a row with
   * it is new; it is 1 for a file without rows and one more than the last
   * version otherwise.
   */
  lemma NextVersionIsNew(rows: Table, realm: string, id: string, filename: string)
    ensures var v := NextVersion(rows, realm, id, filename);
      && (forall u :: Key(realm, id, filename, u) in rows ==> u < v)
      && Key(realm, id, filename, v) !in rows
      && (Versions(rows, realm, id, filename) == {} ==> v == 1)
      && (Versions(rows, realm, id, filename) != {} ==> Key(realm, id, filename, v - 1) in rows)
  {
  }

  /** Every stored version is at least 1, so the next version is at least 2 once the file has a row. */
  lemma NextVersionPositive(rows: Table, realm: string, id: string, filename: string)
    requires forall k :: k in rows ==> k.version >= 1
    ensures NextVersion(rows, realm, id, filename) >= 1
    ensures Versions(rows, realm, id, filename) != {} ==> NextVersion(rows, realm, id, filename) >= 2
  {
  }

  /** `DELETE ... WHERE type=realm AND id=id AND filename=filename`. */
  function WithoutFile(rows: Table, realm: string, id: string, filename: string): (r: Table)
    ensures forall k :: k in r <==> k in rows && !SameFile(k, realm, id, filename)
    ensures forall k :: k in r ==> r[k] == rows[k]
  {
    map k | k in rows && !SameFile(k, realm, id, filename) :: rows[k]
  }

  /** `UPDATE attachment SET status='archived'` for one version; no row changes when the key is absent. */
  function Archive(rows: Table, k: Key): (r: Table)
    ensures r.Keys == rows.Keys
    ensures k in rows ==> r[k] == rows[k].(status := Some("archived"))
    ensures forall j :: j in rows && j != k ==> r[j] == rows[j]
  {
    if k in rows then rows[k := rows[k].(status := Some("archived"))] else rows
  }

  /** The rows of a file moved to another parent. */
  function Moved(rows: Table, realm: string, id: string, filename: string, newRealm: string, newId: string): Table {
    map v | v in Versions(rows, realm, id, filename) :: Key(newRealm, newId, filename, v) := rows[Key(realm, id, filename, v)]
  }

  /**
   * `UPDATE attachment SET type=newRealm, id=newId` for every version of the
   * file; it fails when a moved row would take a key the new parent already
   * uses, which the table's primary key forbids.
   */
  function Reparented(rows: Table, realm: string, id: string, filename: string, newRealm: string, newId: string)
    : (r: Option<Table>)
    ensures r.None? <==> exists v :: v in Versions(rows, realm, id, filename)
                                  && Key(newRealm, newId, filename, v) in WithoutFile(rows, realm, id, filename)
    ensures r.Some? ==> forall v :: Key(newRealm, newId, filename, v) in r.value <==>
      Key(realm, id, filename, v) in rows
      || (Key(newRealm, newId, filename, v) in rows && !SameFile(Key(newRealm, newId, filename, v), realm, id, filename))
  {
    var rest := WithoutFile(rows, realm, id, filename);
    if exists v :: v in Versions(rows, realm, id, filename) && Key(newRealm, newId, filename, v) in rest then None
    else Some(rest + Moved(rows, realm, id, filename, newRealm, newId))
  }

  // ---------------------------------------------------------------------------
  // Names and paths

  /** `'%0.5d' % version`: the number with at least five digits, after a '-' when negative. */
  function FormatVersion(version: int): (r: string)
    ensures version >= 0 ==> |r| >= 5 && EndsWith(r, NatToString(version))
    ensures version >= 0 ==> forall i :: 0 <= i < |r| ==> IsDigit(r[i])
  {
    if version < 0 then "-" + ZeroPad(NatToString(-version), 5) else ZeroPad(NatToString(version), 5)
  }

  lemma FormatVersionExamples()
    ensures FormatVersion(0) == "00000" && FormatVersion(3) == "00003"
  {
    assert Zeros(4) == "0000" by {
      assert Zeros(1) == "0";
      assert Zeros(2) == "00";
      assert Zeros(3) == "000";
    }
    assert NatToString(0) == "0";
    assert NatToString(3) == "3";
  }

  /** Why a path or name could not be formed: the version is not known, and `'%0.5d' % None` fails. */
  datatype FormatError = VersionUnknown

  /** `_archive_filename`: the quoted `'%0.5d_' % version + filename`. */
  function ArchiveFilename(filename: string, version: Option<int>, quote: string -> string): (r: Result<string, FormatError>)
    ensures r.Err? <==> version.None?
    ensures r.Ok? ==> r.value == quote(FormatVersion(version.value) + "_" + filename)
  {
    match version
    case None => Err(VersionUnknown)
    case Some(v) => Ok(quote(FormatVersion(v) + "_" + filename))
  }

  /** `(status or own) == 'archived'`. */
  predicate IsArchived(status: Option<string>, own: Option<string>) {
    (if HasText(status) then status else own) == Some("archived")
  }

  // ---------------------------------------------------------------------------
  // The model object

  /** Why an attachment operation failed. */
  datatype AttachmentError =
    | NoFilename               // the assertion that the attachment has a file name
    | NotFound                 // `ResourceNotFound` from fetching a row
    | OtherVersion             // `delete` of a version that is not the loaded one
    | ArchiveWithoutReplace    // `insert` asked to archive without replacing an existing attachment
    | FilenameChanged          // `insert` replacing an existing attachment by another name
    | TargetExists             // `reparent` onto a path that exists already
    | KeyClash                 // a moved row would take a key the table already has

  class Attachment {
    /** `env.path`. */
    const envPath: string
    var parentRealm: string
    var parentId: string
    /** The attachment resource's id. */
    var filename: Option<string>
    /** The attachment resource's version. */
    var version: Option<int>
    var description: Option<string>
    var size: Option<int>
    /** The time of the version, as stored (microseconds); `date` is derived from it. */
    var time: Option<int>
    var author: Option<string>
    var ipnr: Option<string>
    var status: Option<string>

    /** `Attachment(env, realm, id)` without a file name: a new attachment, not yet stored. */
    constructor(envPath: string, realm: string, id: string)
      ensures this.envPath == envPath && parentRealm == realm && parentId == id
      ensures filename == None && version == Some(0)
      ensures description == None && size == None && time == None && author == None && ipnr == None && status == None
      ensures !Exists()
    {
      this.envPath := envPath;
      parentRealm := realm;
      parentId := id;
      filename := None;
      version := Some(0);
      description := None;
      size := None;
      time := None;
      author := None;
      ipnr := None;
      status := None;
    }

    /** `exists`: there is a file name and a positive version. */
    predicate Exists()
      reads this
    {
      HasText(filename) && version.Some? && version.value > 0
    }

    /** The descriptive fields, which only loading a row or `insert` set. */
    function Details(): (Option<string>, Option<int>, Option<int>, Option<string>, Option<string>)
      reads this
    {
      (description, size, time, author, ipnr)
    }

    /** Every field holds what `_from_database` loads from the row `k`, `d`. */
    predicate Loaded(k: Key, d: Data)
      reads this
    {
      && filename == Some(k.filename) && version == Some(k.version)
      && description == d.description && author == d.author && ipnr == d.ipnr && status == d.status
      && size == Some(d.size.GetOr(0)) && time == Some(d.time.GetOr(0))
    }

    /** `_from_database`: loads the fields from one row. */
    method FromDatabase(k: Key, d: Data)
      modifies this
      ensures Loaded(k, d)
      ensures parentRealm == old(parentRealm) && parentId == old(parentId)
    {
      filename := Some(k.filename);
      version := Some(k.version);
      description := d.description;
      size := Some(d.size.GetOr(0));
      time := Some(d.time.GetOr(0));
      author := d.author;
      ipnr := d.ipnr;
      status := d.status;
    }

    /**
     * `_fetch`: loads the given version of the file, or its latest version when
     * none is given; without such a row only the file name is set.
     */
    method Fetch(rows: Table, name: string, v: Option<int>) returns (r: Result<(), AttachmentError>)
      modifies this
      ensures parentRealm == old(parentRealm) && parentId == old(parentId)
      ensures filename == Some(name)
      ensures r.Err? <==> (if v.Some? then Key(parentRealm, parentId, name, v.value) !in rows
                           else Versions(rows, parentRealm, parentId, name) == {})
      ensures r.Err? ==> r.error == NotFound && version == old(version) && status == old(status)
                         && Details() == old(Details())
      ensures r.Ok? && v.Some? ==> version == v
      ensures r.Ok? && v.None? ==> version == MaxVersion(rows, parentRealm, parentId, name)
      ensures r.Ok? ==> var k := Key(parentRealm, parentId, name, version.value); k in rows && Loaded(k, rows[k])
    {
      var found: Option<Key> := None;
      if v.Some? {
        var k := Key(parentRealm, parentId, name, v.value);
        if k in rows {
          found := Some(k);
        }
      } else {
        var m := MaxVersion(rows, parentRealm, parentId, name);
        if m.Some? {
          found := Some(Key(parentRealm, parentId, name, m.value));
        }
      }
      if found.None? {
        filename := Some(name);
        return Err(NotFound);
      }
      FromDatabase(found.value, rows[found.value]);
      r := Ok(());
    }

    /**
     * `_get_path`: the environment path, the archive or attachments directory,
     * and, when both parent parts are given, the realm, the quoted id and the
     * quoted (archived: version-prefixed) file name. A missing version
     * argument falls back to the object's own, and so does an empty or
     * missing status.
     */
    function GetPath(realm: Option<string>, id: Option<string>, name: Option<string>, v: Option<int>,
                     st: Option<string>, quote: string -> string): (p: Result<seq<string>, FormatError>)
      reads this
      ensures var archived := IsArchived(st, status);
        var ver := if v.None? then version else v;
        && (p.Err? <==> archived && realm.Some? && id.Some? && HasText(name) && ver.None?)
        && (p.Ok? ==> |p.value| >= 2 && p.value[0] == envPath
                      && p.value[1] == (if archived then ArchiveDir else AttachmentsDir))
        && (p.Ok? && (realm.None? || id.None?) ==> |p.value| == 2)
        && (p.Ok? && realm.Some? && id.Some? ==>
              |p.value| == (if HasText(name) then 5 else 4) && p.value[2] == realm.value && p.value[3] == quote(id.value))
        && (p.Ok? && realm.Some? && id.Some? && HasText(name) ==>
              p.value[4] == if archived then quote(FormatVersion(ver.value) + "_" + name.value) else quote(name.value))
    {
      var ver := if v.None? then version else v;
      var archived := IsArchived(st, status);
      var parts := [envPath, if archived then ArchiveDir else AttachmentsDir];
      if realm.Some? && id.Some? then
        var parts := parts + [realm.value, quote(id.value)];
        if archived && HasText(name) then
          match ArchiveFilename(name.value, ver, quote)
          case Err(e) => Err(e)
          case Ok(f) => Ok(parts + [f])
        else if HasText(name) then Ok(parts + [quote(name.value)])
        else Ok(parts)
      else Ok(parts)
    }

    /** `path`: the path of this attachment's own file. */
    function Path(quote: string -> string): Result<seq<string>, FormatError>
      reads this
    {
      GetPath(Some(parentRealm), Some(parentId), filename, version, status, quote)
    }

    /**
     * The guard at the start of `insert`: the attachment's own path lies inside
     * the directory `_get_path()` names.
     */
    lemma PathInsideDirectory(quote: string -> string)
      ensures Path(quote).Ok? ==>
        GetPath(None, None, None, None, None, quote).Ok? && GetPath(None, None, None, None, None, quote).value <= Path(quote).value
    {
    }

    /**
     * `delete(version)`: without a version every row of the file goes and the
     * attachment becomes deleted; with one, only that row goes and the latest
     * remaining version is loaded, or the attachment becomes deleted when none
     * remains.
     */
    method Delete(db: AttachmentTable, v: Option<int>) returns (r: Result<(), AttachmentError>)
      modifies this, db
      ensures parentRealm == old(parentRealm) && parentId == old(parentId)
      ensures r.Err? ==> filename == old(filename) && status == old(status) && Details() == old(Details())
      ensures !HasText(old(filename)) ==> r == Err(NoFilename) && db.rows == old(db.rows) && version == old(version)
      ensures HasText(old(filename)) && v.Some? && v != old(version) ==>
        r == Err(OtherVersion) && db.rows == old(db.rows) && version == old(version)
      ensures HasText(old(filename)) && v.None? ==>
        && r.Ok?
        && db.rows == WithoutFile(old(db.rows), parentRealm, parentId, old(filename).value)
        && filename == old(filename) && Details() == old(Details())
        && version == Some(0) && status == Some("deleted") && !Exists()
      ensures HasText(old(filename)) && v.Some? && v == old(version) ==>
        && r.Ok?
        && db.rows == old(db.rows) - {Key(parentRealm, parentId, old(filename).value, v.value)}
        && filename == old(filename)
        && var left := MaxVersion(db.rows, parentRealm, parentId, filename.value);
           (left.None? ==> version == Some(0) && status == Some("deleted") && !Exists() && Details() == old(Details()))
           && (left.Some? ==>
                 var k := Key(parentRealm, parentId, filename.value, left.value);
                 version == left && k in db.rows && Loaded(k, db.rows[k]))
    {
      if !HasText(filename) {
        return Err(NoFilename);
      }
      if v.Some? && v != version {
        return Err(OtherVersion);
      }
      var name := filename.value;
      if v.None? {
        db.rows := WithoutFile(db.rows, parentRealm, parentId, name);
        version := Some(0);
        status := Some("deleted");
      } else {
        db.rows := db.rows - {Key(parentRealm, parentId, name, v.value)};
        var fetched := Fetch(db.rows, name, None);
        if fetched.Err? {
          version := Some(0);
          status := Some("deleted");
        }
      }
      r := Ok(());
    }

    /**
     * `insert`: refuses to archive unless an existing attachment is replaced, and
     * to replace an existing attachment by another name; otherwise archives the
     * current version when asked, and stores the file under the next version.
     * `storedName` is the name the new file got on disk: the given name when it
     * overwrites or archives, a unique variant of it otherwise.
     */
    method Insert(db: AttachmentTable, name: string, fileSize: int, t: int, replace: bool, archive: bool,
                  storedName: string)
      returns (r: Result<(), AttachmentError>)
      modifies this, db
      ensures parentRealm == old(parentRealm) && parentId == old(parentId)
      ensures size == Some(fileSize) && time == Some(t)
      ensures description == old(description) && author == old(author) && ipnr == old(ipnr) && status == old(status)
      ensures r == Err(ArchiveWithoutReplace) <==> archive && !(replace && old(Exists()))
      ensures r == Err(FilenameChanged) <==> (!archive || replace) && old(Exists()) && Some(name) != old(filename)
      ensures r.Err? ==> db.rows == old(db.rows) && filename == old(filename) && version == old(version)
      ensures r.Ok? ==>
        var key := if archive || replace then name else storedName;
        var before := if archive then Archive(old(db.rows), Key(parentRealm, parentId, key, old(version).value))
                      else old(db.rows);
        && filename == Some(key)
        && version == Some(NextVersion(before, parentRealm, parentId, key))
        && db.rows == before[Key(parentRealm, parentId, key, version.value) := Data(size, time, description, author, ipnr, None)]
        && |db.rows| == |old(db.rows)| + 1
    {
      size := Some(fileSize);
      time := Some(t);
      if (archive && !replace) || (archive && !Exists()) {
        return Err(ArchiveWithoutReplace);
      }
      if Exists() && Some(name) != filename {
        return Err(FilenameChanged);
      }
      var key := if archive || replace then name else storedName;
      if archive && Exists() {
        db.rows := Archive(db.rows, Key(parentRealm, parentId, key, version.value));
      }
      var next := NextVersion(db.rows, parentRealm, parentId, key);
      NextVersionIsNew(db.rows, parentRealm, parentId, key);
      db.rows := db.rows[Key(parentRealm, parentId, key, next) := Data(size, time, description, author, ipnr, None)];
      filename := Some(key);
      version := Some(next);
      r := Ok(());
    }

    /**
     * `reparent`: moves every version of the file to another parent. The new
     * resource is made without a version, so the version is then unknown.
     * `targetExists` says whether the new path exists on disk.
     */
    method Reparent(db: AttachmentTable, newRealm: string, newId: string, targetExists: bool)
      returns (r: Result<(), AttachmentError>)
      modifies this, db
      ensures !HasText(old(filename)) ==> r == Err(NoFilename)
      ensures HasText(old(filename)) && targetExists ==> r == Err(TargetExists)
      ensures filename == old(filename) && status == old(status) && Details() == old(Details())
      ensures r.Err? ==> db.rows == old(db.rows) && parentRealm == old(parentRealm) && parentId == old(parentId)
                         && version == old(version)
      ensures HasText(old(filename)) && !targetExists ==>
        var moved := Reparented(old(db.rows), old(parentRealm), old(parentId), old(filename).value, newRealm, newId);
        && (moved.None? <==> r == Err(KeyClash))
        && (moved.Some? ==> r.Ok? && db.rows == moved.value && parentRealm == newRealm && parentId == newId
                            && filename == old(filename) && version == None && !Exists())
    {
      if !HasText(filename) {
        return Err(NoFilename);
      }
      if targetExists {
        return Err(TargetExists);
      }
      var moved := Reparented(db.rows, parentRealm, parentId, filename.value, newRealm, newId);
      if moved.None? {
        return Err(KeyClash);
      }
      db.rows := moved.value;
      parentRealm, parentId := newRealm, newId;
      version := None;
      r := Ok(());
    }
  }

  /** The `attachment` table of the database. */
  class AttachmentTable {
    var rows: Table

    constructor()
      ensures rows == map[]
    {
      rows := map[];
    }
  }

  /**
   * Inserting a new version of an existing file after deleting nothing gives
   * consecutive versions: the second insert stores version 2.
   */
  lemma SecondVersion(rows: Table, realm: string, id: string, filename: string, d: Data)
    requires Versions(rows, realm, id, filename) == {}
    ensures NextVersion(rows, realm, id, filename) == 1
    ensures NextVersion(rows[Key(realm, id, filename, 1) := d], realm, id, filename) == 2
  {
    var after := rows[Key(realm, id, filename, 1) := d];
    assert Versions(after, realm, id, filename) == {1};
  }

  // ---------------------------------------------------------------------------
  // Neighbouring versions

  /** `versions.index(v)`: the first position of `v`. */
  function IndexOf(versions: seq<int>, v: int): (i: Option<nat>)
    ensures i.None? <==> v !in versions
    ensures i.Some? ==> i.value < |versions| && versions[i.value] == v
    ensures i.Some? ==> forall j :: 0 <= j < i.value ==> versions[j] != v
  {
    if versions == [] then None
    else if versions[0] == v then Some(0)
    else match IndexOf(versions[1..], v)
      case None => None
      case Some(j) => Some(j + 1)
  }

  /** `versions.index` found nothing. */
  datatype PrevNextError = VersionNotListed

  /**
   * `prev_next`: the versions before and after `v` in the stored list, None at
   * either end, and (None, None) when there is at most one version. The index
   * is looked up first, so a version that is not listed fails even then.
   */
  function PrevNext(versions: seq<int>, v: int): (r: Result<(Option<int>, Option<int>), PrevNextError>)
    ensures r.Err? <==> v !in versions
    ensures r.Ok? && |versions| <= 1 ==> r.value == (None, None)
  {
    match IndexOf(versions, v)
    case None => Err(VersionNotListed)
    case Some(here) =>
      if |versions| <= 1 then Ok((None, None))
      else if here == 0 then Ok((None, Some(versions[here + 1])))
      else if here == |versions| - 1 then Ok((Some(versions[here - 1]), None))
      else Ok((Some(versions[here - 1]), Some(versions[here + 1])))
  }

  predicate StrictlyIncreasing(s: seq<int>) {
    forall i, j :: 0 <= i < j < |s| ==> s[i] < s[j]
  }

  /**
   * On the versions in ascending order, the result names the nearest listed
   * version below `v` and the nearest above it, None where there is none.
   */
  lemma PrevNextNeighbours(versions: seq<int>, v: int)
    requires StrictlyIncreasing(versions) && v in versions && |versions| > 1
    ensures var (prev, next) := PrevNext(versions, v).value;
      && (prev.None? <==> forall u :: u in versions ==> u >= v)
      && (prev.Some? ==> prev.value in versions && prev.value < v && forall u :: u in versions && u < v ==> u <= prev.value)
      && (next.None? <==> forall u :: u in versions ==> u <= v)
      && (next.Some? ==> next.value in versions && next.value > v && forall u :: u in versions && u > v ==> u >= next.value)
  {
    var here := IndexOf(versions, v).value;
    forall u | u in versions
      ensures u < v ==> here > 0 && u <= versions[here - 1]
      ensures u > v ==> here < |versions| - 1 && u >= versions[here + 1]
    {
      var j :| 0 <= j < |versions| && versions[j] == u;
      if u < v {
        assert j < here;
      }
      if u > v {
        assert j > here;
      }
    }
    if here > 0 {
      assert versions[0] in versions && versions[0] < v;
    }
    if here < |versions| - 1 {
      assert versions[|versions| - 1] in versions && versions[|versions| - 1] > v;
    }
  }

  /** With a single version there is no neighbour on either side. */
  lemma PrevNextSingle(v: int)
    ensures PrevNext([v], v) == Ok((None, None))
  {
  }

  // ---------------------------------------------------------------------------
  // Uploads

  /** Why an upload was refused. */
  datatype UploadError =
    | NoFileUploaded        // no file name, or nothing left of it after normalising
    | EmptyFile             // the upload has no content
    | TooLarge(limit: int)  // the upload exceeds the configured maximum size

  /** The default of the `[attachment] max_size` option, in bytes. */
  const DefaultMaxSize: int := 262144

  /**
   * The checks of `_do_save` on an upload: it needs a file name, content, and a
   * size within `maxSize` (no limit when negative); the name is put in Unicode
   * normal form C by `nfc` (`unicodedata.normalize`, a parameter here), then keeps
   * only its last component once '\' and ':' are read as '/', and must not be empty.
   */
  function ValidateUpload(uploadName: Option<string>, uploadSize: int, maxSize: int, nfc: string -> string): (r: Result<string, UploadError>)
    ensures r.Ok? <==>
      HasText(uploadName) && uploadSize != 0 && !(maxSize >= 0 && uploadSize > maxSize) && UploadBasename(nfc(uploadName.value)) != ""
    ensures r.Ok? ==> r.value == UploadBasename(nfc(uploadName.value))
    ensures !HasText(uploadName) ==> r == Err(NoFileUploaded)
    ensures HasText(uploadName) && uploadSize == 0 ==> r == Err(EmptyFile)
    ensures r == Err(TooLarge(maxSize)) <==> HasText(uploadName) && uploadSize != 0 && maxSize >= 0 && uploadSize > maxSize
  {
    if !HasText(uploadName) then Err(NoFileUploaded)
    else if uploadSize == 0 then Err(EmptyFile)
    else if maxSize >= 0 && uploadSize > maxSize then Err(TooLarge(maxSize))
    else
      var name := UploadBasename(nfc(uploadName.value));
      if name == "" then Err(NoFileUploaded) else Ok(name)
  }

  /** A negative maximum size turns the size limit off: any non-empty upload with a usable name passes. */
  lemma NoLimitWhenNegative(uploadName: string, uploadSize: int, maxSize: int, nfc: string -> string)
    requires uploadName != [] && maxSize < 0 && uploadSize != 0 && UploadBasename(nfc(uploadName)) != ""
    ensures ValidateUpload(Some(uploadName), uploadSize, maxSize, nfc) == Ok(UploadBasename(nfc(uploadName)))
  {
  }

  /**
   * A name whose normal form C has no '/', '\' or ':' is accepted as that
   * normal form: nothing is cut off it.
   */
  lemma PlainNameKept(uploadName: string, uploadSize: int, maxSize: int, nfc: string -> string)
    requires uploadName != [] && nfc(uploadName) != [] && uploadSize != 0 && !(maxSize >= 0 && uploadSize > maxSize)
    requires forall i :: 0 <= i < |nfc(uploadName)| ==> nfc(uploadName)[i] !in "/\\:"
    ensures ValidateUpload(Some(uploadName), uploadSize, maxSize, nfc) == Ok(nfc(uploadName))
  {
    var name := nfc(uploadName);
    PlainBasename(name);
    assert HasText(Some(uploadName));
    assert UploadBasename(name) == name != "";
  }

  // ---------------------------------------------------------------------------
  // Legacy permission policy

  /** The resource a permission is asked for: its realm and its parent's realm. */
  datatype PermResource = PermResource(realm: string, parentRealm: string)

  /** `_perm_maps`: for each attachment action, the legacy action per parent realm. */
  function PermMap(action: string): (m: Option<map<string, string>>)
    ensures m.Some? <==> action in {"ATTACHMENT_CREATE", "ATTACHMENT_VIEW", "ATTACHMENT_DELETE"}
  {
    if action == "ATTACHMENT_CREATE" then
      Some(map["ticket" := "TICKET_APPEND", "wiki" := "WIKI_MODIFY", "milestone" := "MILESTONE_MODIFY"])
    else if action == "ATTACHMENT_VIEW" then
      Some(map["ticket" := "TICKET_VIEW", "wiki" := "WIKI_VIEW", "milestone" := "MILESTONE_VIEW"])
    else if action == "ATTACHMENT_DELETE" then
      Some(map["ticket" := "TICKET_ADMIN", "wiki" := "WIKI_DELETE", "milestone" := "MILESTONE_DELETE"])
    else None
  }

  /** The first decision that is not None, in delegate order. */
  function FirstDecision(decisions: seq<Option<bool>>): (d: Option<bool>)
    ensures d.None? <==> forall i :: 0 <= i < |decisions| ==> decisions[i].None?
    ensures d.Some? ==>
      exists i :: 0 <= i < |decisions| && decisions[i] == d && forall j :: 0 <= j < i ==> decisions[j].None?
  {
    if decisions == [] then None
    else if decisions[0].Some? then decisions[0]
    else
      var d := FirstDecision(decisions[1..]);
      assert forall i :: 1 <= i < |decisions| ==> decisions[i] == decisions[1..][i - 1];
      d
  }

  /**
   * `check_permission`: no opinion for other actions and other resources; for
   * attachments of ticket, wiki and milestone resources, whether the legacy
   * action is granted on the parent (`granted`); for other parents, the first
   * opinion of the delegates (`delegateDecisions`, in order).
   */
  function CheckPermission(action: string, resource: Option<PermResource>, granted: string -> bool,
                           delegateDecisions: seq<Option<bool>>): (d: Option<bool>)
    ensures PermMap(action).None? || resource.None? || resource.value.realm != "attachment" ==> d.None?
    ensures PermMap(action).Some? && resource.Some? && resource.value.realm == "attachment"
            && resource.value.parentRealm in PermMap(action).value ==>
            d == Some(granted(PermMap(action).value[resource.value.parentRealm]))
    ensures PermMap(action).Some? && resource.Some? && resource.value.realm == "attachment"
            && resource.value.parentRealm !in PermMap(action).value ==>
            d == FirstDecision(delegateDecisions)
  {
    match PermMap(action)
    case None => None
    case Some(perms) =>
      if resource.None? || resource.value.realm != "attachment" then None
      else if resource.value.parentRealm in perms then Some(granted(perms[resource.value.parentRealm]))
      else FirstDecision(delegateDecisions)
  }

  /** Viewing a ticket attachment is exactly having TICKET_VIEW on the ticket; no delegate is asked. */
  lemma TicketAttachmentView(granted: string -> bool, delegateDecisions: seq<Option<bool>>)
    ensures CheckPermission("ATTACHMENT_VIEW", Some(PermResource("attachment", "ticket")), granted, delegateDecisions)
         == Some(granted("TICKET_VIEW"))
  {
  }

  // ---------------------------------------------------------------------------
  // Admin command arguments

  /** The argument is not of the form `realm:id`. */
  datatype AdminCommandError = InvalidResourceIdentifier(resource: string)

  /** `resource.split(':', 1)`, which must give two parts. */
  function SplitResource(resource: string): (r: Result<(string, string), AdminCommandError>)
    ensures r.Err? <==> ':' !in resource
    ensures r.Err? ==> r.error == InvalidResourceIdentifier(resource)
    ensures r.Ok? ==> resource == r.value.0 + ":" + r.value.1 && ':' !in r.value.0
  {
    if resource == [] then Err(InvalidResourceIdentifier(resource))
    else if resource[0] == ':' then Ok(([], resource[1..]))
    else
      match SplitResource(resource[1..])
      case Err(_) => Err(InvalidResourceIdentifier(resource))
      case Ok((realm, id)) => Ok(([resource[0]] + realm, id))
  }

  /** Joining a realm without ':' and any id with ':' and splitting again gives both back. */
  lemma {:induction false} SplitResourceJoin(realm: string, id: string)
    requires ':' !in realm
    ensures SplitResource(realm + ":" + id) == Ok((realm, id))
    decreases |realm|
  {
    if realm != [] {
      assert (realm + ":" + id)[1..] == realm[1..] + ":" + id;
      SplitResourceJoin(realm[1..], id);
      assert [realm[0]] + realm[1..] == realm;
    } else {
      assert realm + ":" + id == ":" + id;
    }
  }
}
