/**
 * The photo-metadata normaliser: from a photo path and what the tag source
 * produced for it (a decoded tag mapping, or a fault), build the fixed-shape
 * metadata record.
 *
 * The tag source (opening the file and decoding its EXIF block) is not
 * modelled; its outcome is the parameter `source`. Tag values are taken as
 * already converted to their display strings; `None` is a tag present with
 * the value `None`.
 */
module ExifUtils {
  import opened Wrappers
  import opened PosixPath

  type Tags = map<string, Option<string>>

  /** What the tag source produced: the decoded tags, or a fault with its kind (the exception class name) and message. */
  datatype TagSource = Decoded(tags: Tags) | Fault(kind: string, msg: string)

  /** Timestamp tags to try, most authoritative first, each with the logical name reported as `timestamp_source`. */
  const TimestampTags: seq<(string, string)> := [
    ("EXIF DateTimeOriginal", "DateTimeOriginal"),
    ("EXIF DateTimeDigitized", "DateTimeDigitized"),
    ("Image DateTime", "ImageDateTime")
  ]

  /** The four GPS tags, passed through unconverted. */
  const GpsLatTag: string := "GPS GPSLatitude"
  const GpsLatRefTag: string := "GPS GPSLatitudeRef"
  const GpsLonTag: string := "GPS GPSLongitude"
  const GpsLonRefTag: string := "GPS GPSLongitudeRef"

  const CameraTag: string := "Image Model"

  /** `_safe_get`: the tag's display string, or `None` when the tag is missing or its value is `None`. */
  function SafeGet(tags: Tags, name: string): (r: Option<string>)
    ensures r.None? <==> name !in tags || tags[name].None?
    ensures r.Some? ==> tags[name] == Some(r.value)
  {
    if name in tags then tags[name] else None
  }

  /** A timestamp candidate matches when its value is present and not the empty string (Python truthiness). */
  predicate Matches(tags: Tags, name: string) {
    var v := SafeGet(tags, name);
    v.Some? && v.value != ""
  }

  /** Candidate `i` is the first one that matches. */
  predicate FirstMatchAt(tags: Tags, candidates: seq<(string, string)>, i: int)
    requires 0 <= i < |candidates|
  {
    && Matches(tags, candidates[i].0)
    && forall j | 0 <= j < i :: !Matches(tags, candidates[j].0)
  }

  datatype Timestamp = Timestamp(raw: string, source: string)

  /**
   * The timestamp resolver: the value of the first candidate that matches,
   * paired with that candidate's logical name; nothing when none matches.
   */
  function ResolveTimestamp(tags: Tags, candidates: seq<(string, string)>): (r: Option<Timestamp>)
    ensures r.None? <==> forall i | 0 <= i < |candidates| :: !Matches(tags, candidates[i].0)
    ensures r.Some? ==> exists i | 0 <= i < |candidates| :: FirstMatchAt(tags, candidates, i)
                          && r.value == Timestamp(SafeGet(tags, candidates[i].0).value, candidates[i].1)
    ensures forall i | 0 <= i < |candidates| && FirstMatchAt(tags, candidates, i) ::
              r == Some(Timestamp(SafeGet(tags, candidates[i].0).value, candidates[i].1))
  {
    if |candidates| == 0 then None
    else
      var (tag, source) := candidates[0];
      var ts := SafeGet(tags, tag);
      if ts.Some? && ts.value != "" then Some(Timestamp(ts.value, source))
      else
        var rest := ResolveTimestamp(tags, candidates[1..]);
        assert forall i | 1 <= i < |candidates| :: candidates[1..][i - 1] == candidates[i];
        assert forall i | 1 <= i < |candidates| && FirstMatchAt(tags, candidates, i) :: FirstMatchAt(tags, candidates[1..], i - 1);
        assert forall i | 0 <= i < |candidates| - 1 && FirstMatchAt(tags, candidates[1..], i) :: FirstMatchAt(tags, candidates, i + 1);
        rest
  }

  /**
   * Later candidates do not matter once an earlier one matches: two tag
   * mappings that agree on candidates 0..i, where candidate i matches in
   * the first, resolve to the same timestamp.
   */
  lemma LaterCandidatesIgnored(t1: Tags, t2: Tags, candidates: seq<(string, string)>, i: nat)
    requires i < |candidates| && Matches(t1, candidates[i].0)
    requires forall j | 0 <= j <= i :: SafeGet(t1, candidates[j].0) == SafeGet(t2, candidates[j].0)
    ensures ResolveTimestamp(t1, candidates) == ResolveTimestamp(t2, candidates)
  {
  }

  /** Appending further candidates changes nothing once the list already resolves. */
  lemma AppendedCandidatesIgnored(tags: Tags, front: seq<(string, string)>, back: seq<(string, string)>)
    requires ResolveTimestamp(tags, front).Some?
    ensures ResolveTimestamp(tags, front + back) == ResolveTimestamp(tags, front)
  {
    var all := front + back;
    var i :| 0 <= i < |front| && FirstMatchAt(tags, front, i)
             && ResolveTimestamp(tags, front).value == Timestamp(SafeGet(tags, front[i].0).value, front[i].1);
    forall j | 0 <= j <= i ensures all[j] == front[j] {
    }
    assert FirstMatchAt(tags, all, i);
  }

  datatype Status = Ok | Error

  /** The metadata record, one field per key of the result dictionary. */
  datatype Record = Record(
    photoPath: string,
    fileName: string,
    fileExt: string,
    timestampRaw: Option<string>,
    timestampSource: Option<string>,
    camera: Option<string>,
    gpsLat: Option<string>,
    gpsLatRef: Option<string>,
    gpsLon: Option<string>,
    gpsLonRef: Option<string>,
    exifPresent: bool,
    status: Status,
    errorMessage: Option<string>)

  /** The record's invariant: the status/error coupling and the timestamp pairing. */
  predicate Coherent(r: Record) {
    && (r.status == Ok <==> r.errorMessage.None?)
    && (r.status == Error ==>
          && r.timestampRaw.None? && r.timestampSource.None? && r.camera.None?
          && r.gpsLat.None? && r.gpsLatRef.None? && r.gpsLon.None? && r.gpsLonRef.None?
          && !r.exifPresent)
    && (r.timestampRaw.Some? <==> r.timestampSource.Some?)
    && (r.timestampRaw.Some? ==> r.timestampRaw.value != "")
  }

  /** The extension as reported: `splitext(path)[1].lower()`. */
  function FileExt(photoPath: string): string {
    Lower(Splitext(photoPath).1)
  }

  /**
   * The reported extension is empty or a `.` followed by characters that
   * are neither `.` nor `/`, and it holds no upper-case ASCII letter.
   */
  lemma FileExtShape(photoPath: string)
    ensures var e := FileExt(photoPath);
            && (e == [] || (e[0] == ExtSep && ExtSep !in e[1..] && Sep !in e))
            && forall i | 0 <= i < |e| :: !('A' <= e[i] <= 'Z')
  {
  }

  /** The record before the tag source is consulted. */
  function Baseline(photoPath: string): Record {
    Record(photoPath, Basename(photoPath), FileExt(photoPath),
           None, None, None, None, None, None, None,
           false, Ok, None)
  }

  function ErrorMessage(kind: string, msg: string): string {
    kind + ": " + msg
  }

  /** What `extract_exif` returns, as a record. */
  function Extract(photoPath: string, source: TagSource): Record
  {
    var base := Baseline(photoPath);
    match source
    case Fault(kind, msg) =>
      base.(status := Error, errorMessage := Some(ErrorMessage(kind, msg)))
    case Decoded(tags) =>
      var ts := ResolveTimestamp(tags, TimestampTags);
      base.(exifPresent := |tags| > 0,
            camera := SafeGet(tags, CameraTag),
            timestampRaw := if ts.Some? then Some(ts.value.raw) else None,
            timestampSource := if ts.Some? then Some(ts.value.source) else None,
            gpsLat := SafeGet(tags, GpsLatTag),
            gpsLatRef := SafeGet(tags, GpsLatRefTag),
            gpsLon := SafeGet(tags, GpsLonTag),
            gpsLonRef := SafeGet(tags, GpsLonRefTag))
  }

  /**
   * The record invariant holds on every outcome: status and error message
   * agree, a fault leaves every extracted field at its baseline, and the
   * timestamp value and its source are set together.
   */
  lemma ExtractCoherent(photoPath: string, source: TagSource)
    ensures Coherent(Extract(photoPath, source))
  {
  }

  /** The path fields are derived from the path alone, whatever the tag source did. */
  lemma PathFieldsIgnoreOutcome(photoPath: string, s1: TagSource, s2: TagSource)
    ensures var r1, r2 := Extract(photoPath, s1), Extract(photoPath, s2);
            && r1.photoPath == r2.photoPath == photoPath
            && r1.fileName == r2.fileName == Basename(photoPath)
            && r1.fileExt == r2.fileExt == FileExt(photoPath)
  {
  }

  /** A fault becomes data: status `error`, message `<kind>: <message>`, everything else at its baseline. */
  lemma ExtractOnFault(photoPath: string, kind: string, msg: string)
    ensures var r := Extract(photoPath, Fault(kind, msg));
            && r.status == Error
            && r.errorMessage == Some(kind + ": " + msg)
            && r == Baseline(photoPath).(status := Error, errorMessage := r.errorMessage)
  {
  }

  /**
   * On decoded tags: status `ok`, `exif_present` exactly when there are
   * tags, the camera and GPS fields are the raw lookups (an empty string
   * passes through), and the timestamp is the first candidate that matches.
   */
  lemma ExtractOnDecoded(photoPath: string, tags: Tags)
    ensures var r := Extract(photoPath, Decoded(tags));
            && r.status == Ok && r.errorMessage.None?
            && r.exifPresent == (|tags| > 0)
            && r.camera == (if CameraTag in tags then tags[CameraTag] else None)
            && r.gpsLat == (if GpsLatTag in tags then tags[GpsLatTag] else None)
            && r.gpsLatRef == (if GpsLatRefTag in tags then tags[GpsLatRefTag] else None)
            && r.gpsLon == (if GpsLonTag in tags then tags[GpsLonTag] else None)
            && r.gpsLonRef == (if GpsLonRefTag in tags then tags[GpsLonRefTag] else None)
            && (r.timestampRaw.None? <==> forall i | 0 <= i < |TimestampTags| :: !Matches(tags, TimestampTags[i].0))
            && forall i | 0 <= i < |TimestampTags| && FirstMatchAt(tags, TimestampTags, i) ::
                 r.timestampRaw == tags[TimestampTags[i].0] && r.timestampSource == Some(TimestampTags[i].1)
  {
  }

  /** A Python value stored in the result dictionary. */
  datatype Value = Null | Str(s: string) | Flag(b: bool)

  /** The keys of the result dictionary; `KeyName` gives each one's string. */
  datatype Key =
    | PhotoPath | FileName | FileExtKey | TimestampRaw | TimestampSource
    | Camera | GpsLat | GpsLatRef | GpsLon | GpsLonRef
    | ExifPresent | StatusKey | ErrorMessageKey

  function KeyName(k: Key): string {
    match k
    case PhotoPath => "photo_path"
    case FileName => "file_name"
    case FileExtKey => "file_ext"
    case TimestampRaw => "timestamp_raw"
    case TimestampSource => "timestamp_source"
    case Camera => "camera"
    case GpsLat => "gps_lat"
    case GpsLatRef => "gps_lat_ref"
    case GpsLon => "gps_lon"
    case GpsLonRef => "gps_lon_ref"
    case ExifPresent => "exif_present"
    case StatusKey => "status"
    case ErrorMessageKey => "error_message"
  }

  /** The 13 keys, in the order the baseline declares them. */
  const Schema: seq<Key> := [
    PhotoPath, FileName, FileExtKey, TimestampRaw, TimestampSource,
    Camera, GpsLat, GpsLatRef, GpsLon, GpsLonRef,
    ExifPresent, StatusKey, ErrorMessageKey
  ]

  /** The key a string names, if any. */
  function KeyOf(name: string): (k: Option<Key>)
  {
    if name == "photo_path" then Some(PhotoPath)
    else if name == "file_name" then Some(FileName)
    else if name == "file_ext" then Some(FileExtKey)
    else if name == "timestamp_raw" then Some(TimestampRaw)
    else if name == "timestamp_source" then Some(TimestampSource)
    else if name == "camera" then Some(Camera)
    else if name == "gps_lat" then Some(GpsLat)
    else if name == "gps_lat_ref" then Some(GpsLatRef)
    else if name == "gps_lon" then Some(GpsLon)
    else if name == "gps_lon_ref" then Some(GpsLonRef)
    else if name == "exif_present" then Some(ExifPresent)
    else if name == "status" then Some(StatusKey)
    else if name == "error_message" then Some(ErrorMessageKey)
    else None
  }

  /** Each key has its own name: the 13 keys are 13 distinct strings. */
  lemma KeyNameRoundTrip(k: Key)
    ensures KeyOf(KeyName(k)) == Some(k)
  {
  }

  function OrNull(o: Option<string>): Value {
    if o.Some? then Str(o.value) else Null
  }

  function StatusName(s: Status): string {
    if s == Ok then "ok" else "error"
  }

  /** The schema lists every key. */
  lemma SchemaComplete()
    ensures forall k: Key :: k in Schema
  {
    forall k: Key ensures k in Schema {
      match k
      case PhotoPath => assert Schema[0] == k;
      case FileName => assert Schema[1] == k;
      case FileExtKey => assert Schema[2] == k;
      case TimestampRaw => assert Schema[3] == k;
      case TimestampSource => assert Schema[4] == k;
      case Camera => assert Schema[5] == k;
      case GpsLat => assert Schema[6] == k;
      case GpsLatRef => assert Schema[7] == k;
      case GpsLon => assert Schema[8] == k;
      case GpsLonRef => assert Schema[9] == k;
      case ExifPresent => assert Schema[10] == k;
      case StatusKey => assert Schema[11] == k;
      case ErrorMessageKey => assert Schema[12] == k;
    }
  }

  /** The value the record holds under a key. */
  function Field(r: Record, k: Key): Value {
    match k
    case PhotoPath => Str(r.photoPath)
    case FileName => Str(r.fileName)
    case FileExtKey => Str(r.fileExt)
    case TimestampRaw => OrNull(r.timestampRaw)
    case TimestampSource => OrNull(r.timestampSource)
    case Camera => OrNull(r.camera)
    case GpsLat => OrNull(r.gpsLat)
    case GpsLatRef => OrNull(r.gpsLatRef)
    case GpsLon => OrNull(r.gpsLon)
    case GpsLonRef => OrNull(r.gpsLonRef)
    case ExifPresent => Flag(r.exifPresent)
    case StatusKey => Str(StatusName(r.status))
    case ErrorMessageKey => OrNull(r.errorMessage)
  }

  /** The record as the dictionary `extract_exif` returns: every schema key, and no other. */
  function AsDict(r: Record): (d: map<Key, Value>)
    ensures forall k: Key :: k in d
  {
    SchemaComplete();
    map k | k in Schema :: Field(r, k)
  }

  lemma OrNullInjective(a: Option<string>, b: Option<string>)
    requires OrNull(a) == OrNull(b)
    ensures a == b
  {
  }

  /** Two records that agree on every key are equal. */
  lemma FieldsDetermineRecord(r1: Record, r2: Record)
    requires forall k: Key :: Field(r1, k) == Field(r2, k)
    ensures r1 == r2
  {
    assert Field(r1, PhotoPath) == Field(r2, PhotoPath);
    assert Field(r1, FileName) == Field(r2, FileName);
    assert Field(r1, FileExtKey) == Field(r2, FileExtKey);
    assert Field(r1, ExifPresent) == Field(r2, ExifPresent);
    assert Field(r1, StatusKey) == Field(r2, StatusKey);
    assert |StatusName(Ok)| != |StatusName(Error)|;
    assert Field(r1, TimestampRaw) == Field(r2, TimestampRaw);
    OrNullInjective(r1.timestampRaw, r2.timestampRaw);
    assert Field(r1, TimestampSource) == Field(r2, TimestampSource);
    OrNullInjective(r1.timestampSource, r2.timestampSource);
    assert Field(r1, Camera) == Field(r2, Camera);
    OrNullInjective(r1.camera, r2.camera);
    assert Field(r1, GpsLat) == Field(r2, GpsLat);
    OrNullInjective(r1.gpsLat, r2.gpsLat);
    assert Field(r1, GpsLatRef) == Field(r2, GpsLatRef);
    OrNullInjective(r1.gpsLatRef, r2.gpsLatRef);
    assert Field(r1, GpsLon) == Field(r2, GpsLon);
    OrNullInjective(r1.gpsLon, r2.gpsLon);
    assert Field(r1, GpsLonRef) == Field(r2, GpsLonRef);
    OrNullInjective(r1.gpsLonRef, r2.gpsLonRef);
    assert Field(r1, ErrorMessageKey) == Field(r2, ErrorMessageKey);
    OrNullInjective(r1.errorMessage, r2.errorMessage);
  }

  /** No field is lost or conflated in the dictionary: different records give different dictionaries. */
  lemma AsDictInjective(r1: Record, r2: Record)
    requires AsDict(r1) == AsDict(r2)
    ensures r1 == r2
  {
    SchemaComplete();
    forall k: Key ensures Field(r1, k) == Field(r2, k) {
      assert AsDict(r1)[k] == AsDict(r2)[k];
    }
    FieldsDetermineRecord(r1, r2);
  }

  /**
   * `extract_exif`: start from the baseline record, then overwrite its
   * fields as the tag source's outcome dictates. The timestamp candidates
   * are scanned in order and the scan stops at the first match.
   */
  method ExtractExif(photoPath: string, source: TagSource) returns (base: Record)
    ensures base == Extract(photoPath, source)
    ensures Coherent(base)
  {
    base := Record(
      photoPath,
      Basename(photoPath),
      Lower(Splitext(photoPath).1),
      None, None, None, None, None, None, None,
      false,
      Ok,
      None);
    match source {
    case Decoded(tags) =>
      base := base.(exifPresent := |tags| > 0);
      base := base.(camera := SafeGet(tags, CameraTag));
      ghost var before := base;
      var i := 0;
      while i < |TimestampTags|
        invariant 0 <= i <= |TimestampTags|
        invariant ResolveTimestamp(tags, TimestampTags[i..]) == ResolveTimestamp(tags, TimestampTags)
        invariant base == before
      {
        var (tag, src) := TimestampTags[i];
        var ts := SafeGet(tags, tag);
        if ts.Some? && ts.value != "" {
          assert TimestampTags[i..][0] == (tag, src);
          base := base.(timestampRaw := Some(ts.value));
          base := base.(timestampSource := Some(src));
          break;
        }
        i := i + 1;
      }
      base := base.(gpsLat := SafeGet(tags, GpsLatTag));
      base := base.(gpsLatRef := SafeGet(tags, GpsLatRefTag));
      base := base.(gpsLon := SafeGet(tags, GpsLonTag));
      base := base.(gpsLonRef := SafeGet(tags, GpsLonRefTag));
    case Fault(kind, msg) =>
      base := base.(status := Error);
      base := base.(errorMessage := Some(ErrorMessage(kind, msg)));
    }
    ExtractCoherent(photoPath, source);
  }
}
