/**
 * Worked examples of the normaliser on concrete inputs: timestamp priority,
 * skipping an empty candidate, a mapping without timestamps, an empty
 * mapping, a fault, and the path-derived fields.
 */
module ExifScenarios {
  import opened Wrappers
  import opened PosixPath
  import opened ExifUtils

  /** The most authoritative timestamp wins over a less authoritative one. */
  lemma OriginalBeatsImageDateTime(photoPath: string)
    ensures var tags := map["EXIF DateTimeOriginal" := Some("2020:01:01 10:00:00"),
                            "Image DateTime" := Some("1999:01:01 00:00:00")];
            var r := Extract(photoPath, Decoded(tags));
            && r.timestampRaw == Some("2020:01:01 10:00:00")
            && r.timestampSource == Some("DateTimeOriginal")
  {
    var tags := map["EXIF DateTimeOriginal" := Some("2020:01:01 10:00:00"),
                    "Image DateTime" := Some("1999:01:01 00:00:00")];
    assert FirstMatchAt(tags, TimestampTags, 0);
  }

  /** An empty string is not a match: the scan moves on to the next candidate. */
  lemma EmptyOriginalIsSkipped(photoPath: string)
    ensures var tags := map["EXIF DateTimeOriginal" := Some(""),
                            "EXIF DateTimeDigitized" := Some("2021:05:05 12:00:00")];
            var r := Extract(photoPath, Decoded(tags));
            && r.timestampRaw == Some("2021:05:05 12:00:00")
            && r.timestampSource == Some("DateTimeDigitized")
            && r.status == Ok
  {
    var tags := map["EXIF DateTimeOriginal" := Some(""),
                    "EXIF DateTimeDigitized" := Some("2021:05:05 12:00:00")];
    assert !Matches(tags, TimestampTags[0].0);
    assert FirstMatchAt(tags, TimestampTags, 1);
  }

  /**
   * A mapping that holds none of the timestamp tags gives no timestamp, and
   * that alone is not an error.
   */
  lemma NoTimestampIsNotAnError(photoPath: string, tags: Tags)
    requires forall i | 0 <= i < |TimestampTags| :: TimestampTags[i].0 !in tags
    ensures var r := Extract(photoPath, Decoded(tags));
            && r.timestampRaw.None? && r.timestampSource.None?
            && r.status == Ok && r.errorMessage.None?
  {
    forall i | 0 <= i < |TimestampTags| ensures !Matches(tags, TimestampTags[i].0) {
    }
  }

  /**
   * A file whose container holds no tags at all is still a success: every
   * extracted field is null and `exif_present` is false, yet the status is
   * `ok`. All-null extraction fields therefore do not imply an error.
   */
  lemma EmptyMappingIsOk(photoPath: string)
    ensures var r := Extract(photoPath, Decoded(map[]));
            && r == Baseline(photoPath)
            && r.status == Ok && !r.exifPresent
  {
    forall i | 0 <= i < |TimestampTags| ensures !Matches(map[], TimestampTags[i].0) {
    }
  }

  /** The upper-case extension of camera files, lower-cased. */
  lemma LowerJpg()
    ensures Lower(".JPG") == ".jpg"
  {
    var l := Lower(".JPG");
    assert l[0] == '.' && l[1] == 'j' && l[2] == 'p' && l[3] == 'g';
  }

  /** The base name of a typical camera file. */
  lemma CameraFileName()
    ensures Basename("/a/b/IMG_0001.JPG") == "IMG_0001.JPG"
  {
    assert "/a/b/IMG_0001.JPG" == "/a/b/" + "IMG_0001.JPG";
    assert Sep !in "IMG_0001.JPG";
    BasenameAfterDir("/a/b/", "IMG_0001.JPG");
  }

  /** The extension of a typical camera file, lower-cased. */
  lemma CameraFileExt()
    ensures FileExt("/a/b/IMG_0001.JPG") == ".jpg"
  {
    assert "/a/b/IMG_0001.JPG" == "/a/b/" + "IMG_0001" + [ExtSep] + "JPG";
    assert !AllExtSeps("IMG_0001") by { assert "IMG_0001"[0] != ExtSep; }
    assert Sep !in "IMG_0001.JPG";
    assert "IMG_0001" + [ExtSep] + "JPG" == "IMG_0001.JPG";
    ExtensionAfterStem("/a/b/", "IMG_0001", "JPG");
    LowerJpg();
  }

  /**
   * A file that cannot be opened: the fault becomes the error message, the
   * extracted fields stay null, and the path fields are still derived.
   */
  lemma MissingFile(kind: string, msg: string)
    ensures var r := Extract("/a/b/IMG_0001.JPG", Fault(kind, msg));
            && r.status == Error
            && r.errorMessage == Some(kind + ": " + msg)
            && r.fileName == "IMG_0001.JPG"
            && r.fileExt == ".jpg"
            && !r.exifPresent && r.camera.None?
            && r.timestampRaw.None? && r.timestampSource.None?
            && r.gpsLat.None? && r.gpsLatRef.None? && r.gpsLon.None? && r.gpsLonRef.None?
  {
    CameraFileName();
    CameraFileExt();
  }

  /** A dotfile has no extension: a leading `.` does not start one. */
  lemma DotfileScenario()
    ensures FileExt("/home/u/.bashrc") == []
  {
    assert "/home/u/.bashrc" == "/home/u/" + [ExtSep] + "bashrc";
    DotfileHasNoExtension("/home/u/", "bashrc");
  }

  lemma LowerGz()
    ensures Lower(".GZ") == ".gz"
  {
    var l := Lower(".GZ");
    assert l[0] == '.' && l[1] == 'g' && l[2] == 'z';
  }

  /** Of several dots, the last one starts the extension. */
  lemma DoubleExtensionScenario()
    ensures Basename("trip/backup.tar.GZ") == "backup.tar.GZ"
    ensures FileExt("trip/backup.tar.GZ") == ".gz"
  {
    assert "trip/backup.tar.GZ" == "trip/" + "backup.tar" + [ExtSep] + "GZ";
    assert !AllExtSeps("backup.tar") by { assert "backup.tar"[0] != ExtSep; }
    FileNameParts("trip/", "backup.tar", "GZ");
    LowerGz();
  }
}
