# Photo EXIF normaliser, modelled in Dafny

The travel-photo analytics project turns each photo into one flat metadata
record. `extract_exif` takes a photo path and always returns a dictionary
with the same 13 keys. The keys hold:

- the path, its base name and its lower-cased extension;
- the capture timestamp and the tag it came from;
- the camera model;
- the four raw GPS tags;
- whether the file carried any tags;
- a status of `ok` or `error`, and an error message.

The timestamp comes from the first of three tags, in priority order, whose
value is present and not empty: `EXIF DateTimeOriginal`, then
`EXIF DateTimeDigitized`, then `Image DateTime`. If opening or decoding the
file fails, the fault is not raised to the caller. It becomes
`status = "error"` and the message `"<kind>: <message>"`, and every other
field keeps its baseline value.

The model has four modules:

- `Wrappers`: the `Option` type, which plays Python's `None`.
- `PosixPath`: the parts of `os.path` and `str` the record needs. These are
  `rfind`, `basename`, `splitext` (the CPython algorithm, leading dots
  included) and ASCII `lower`, each with lemmas that say what it computes.
- `ExifUtils`: the core.
  - `SafeGet` is `_safe_get`.
  - `ResolveTimestamp` is the fallback scan as a recursive specification.
  - `Extract` is the record `extract_exif` returns, as a function of the path
    and of the tag source's outcome.
  - `ExtractExif` is the function itself, written as the source writes it:
    a baseline record, overwritten field by field, and a `while` loop over
    the candidates that stops at the first match. It is proved equal to
    `Extract` and to keep the record invariant `Coherent`.
  - `AsDict` gives the dictionary view of the record, keyed by the 13 schema
    keys.
- `ExifScenarios`: worked examples on concrete inputs:
  - timestamp priority;
  - an empty timestamp is skipped;
  - a mapping with no timestamp;
  - an empty mapping;
  - a missing file;
  - path derivation for `/a/b/IMG_0001.JPG`, dotfiles and double extensions.

The tag source (opening the file and `exifread.process_file`) cannot be seen
from here. Its outcome is the parameter `source: TagSource`. It is either
`Decoded(tags)`, a map from tag name to an optional display string, or
`Fault(kind, msg)`, the exception's class name and message.

## Model

| member | source | states |
|---|---|---|
| `ExifUtils.SafeGet` | utils/exif_utils.py:23-25 | The result is `None` exactly when the tag is missing or holds `None`. Otherwise it is the tag's value. |
| `ExifUtils.ResolveTimestamp` | utils/exif_utils.py:59-65 | No timestamp exactly when no candidate has a non-empty value. Otherwise the result is the value and logical name of the first candidate that has one, and that candidate exists. |
| `ExifUtils.Matches` | utils/exif_utils.py:61-62 | No ensures. The `if ts:` test: the tag's display string is present and not empty. Characterised through `ResolveTimestamp` and `ExifScenarios.EmptyOriginalIsSkipped`. |
| `ExifUtils.LaterCandidatesIgnored` | utils/exif_utils.py:60-65 | Two tag mappings that agree up to the first matching candidate resolve to the same timestamp. Later candidates cannot change the result (the `break`). |
| `ExifUtils.AppendedCandidatesIgnored` | utils/exif_utils.py:60-65 | Once a candidate list resolves, appending further candidates leaves the result unchanged. |
| `ExifUtils.FileExt` | utils/exif_utils.py:38 | No ensures. `splitext(path)[1].lower()`. Characterised by `ExifUtils.FileExtShape` and `ExifScenarios.CameraFileExt`. |
| `ExifUtils.FileExtShape` | utils/exif_utils.py:38 | `file_ext` is empty or a `.` followed by characters that are neither `.` nor `/`. It holds no upper-case ASCII letter. |
| `ExifUtils.Baseline` | utils/exif_utils.py:35-49 | No ensures. The record before the tag source is consulted: the path fields, every extraction field null, `exif_present` false, status `ok`. Characterised by `ExifUtils.ExtractOnFault` and `ExifScenarios.EmptyMappingIsOk`. |
| `ExifUtils.ErrorMessage` | utils/exif_utils.py:77 | No ensures. The message `f"{kind}: {msg}"`. Characterised by `ExifUtils.ExtractOnFault`. |
| `ExifUtils.Extract` | utils/exif_utils.py:35-78 | No ensures. The record `extract_exif` returns, as a function of the path and the tag source's outcome. Characterised by `ExifUtils.ExtractCoherent`, `ExifUtils.ExtractOnFault`, `ExifUtils.ExtractOnDecoded` and `ExifUtils.PathFieldsIgnoreOutcome`. `ExifUtils.ExtractExif` is proved equal to it. |
| `ExifUtils.ExtractCoherent` | utils/exif_utils.py:35-78 | Every outcome gives a coherent record. Status is `ok` exactly when the error message is null. An error leaves every extracted field null and `exif_present` false. The timestamp value and its source are set together, and a set value is never empty. |
| `ExifUtils.PathFieldsIgnoreOutcome` | utils/exif_utils.py:35-38 | `photo_path`, `file_name` and `file_ext` depend on the path only, whatever the tag source did. |
| `ExifUtils.ExtractOnFault` | utils/exif_utils.py:75-78 | A fault gives status `error` and the message `kind + ": " + msg`. Every other field equals the baseline record. |
| `ExifUtils.ExtractOnDecoded` | utils/exif_utils.py:55-71 | Decoded tags give status `ok` and a null error. `exif_present` is true exactly when there is at least one tag. Camera and GPS are the raw lookups, so an empty string passes through. The timestamp is null exactly when no candidate matches; otherwise it is the first match's value and name. |
| `ExifUtils.KeyNameRoundTrip` | utils/exif_utils.py:35-49 | Each schema key's name maps back to that key, so the 13 names are distinct. |
| `ExifUtils.SchemaComplete` | utils/exif_utils.py:35-49 | The schema lists every key of the record. |
| `ExifUtils.AsDict` | utils/exif_utils.py:35-49 | Every key is present in the returned dictionary, whatever the outcome. |
| `ExifUtils.AsDictInjective` | utils/exif_utils.py:35-49 | Records with equal dictionaries are equal, so the dictionary drops or merges no field. |
| `ExifUtils.ExtractExif` | utils/exif_utils.py:28-78 | The baseline-then-overwrite procedure, whose scan stops at the first match, returns exactly `Extract(photoPath, source)`. The record it returns is coherent. |
| `PosixPath.LastIndexOf` | utils/exif_utils.py:37-38 | The index of the last occurrence of a character, or -1. The character is at that index, and nowhere after it. |
| `PosixPath.Basename` | utils/exif_utils.py:37 | No ensures. `os.path.basename`: the path after its last `/`. Characterised by `PosixPath.BasenameIsLastComponent`. |
| `PosixPath.Splitext` | utils/exif_utils.py:38 | No ensures. `os.path.splitext`, following CPython's `_splitext`, leading dots included. Characterised by `PosixPath.SplitextParts` and `PosixPath.ExtensionOfBasename`. |
| `PosixPath.Lower` | utils/exif_utils.py:38 | No ensures. `str.lower` on ASCII letters. Characterised by `PosixPath.LowerSpec`. |
| `PosixPath.BasenameIsLastComponent` | utils/exif_utils.py:37 | The base name is a suffix of the path and holds no `/`. A `/` precedes it unless it is the whole path. |
| `PosixPath.SplitextParts` | utils/exif_utils.py:38 | The root and the extension join back into the path. A non-empty extension is a `.` followed by characters that are neither `.` nor `/`. |
| `PosixPath.ExtensionOfBasename` | utils/exif_utils.py:37-38 | The path has an extension exactly when some `.` of the base name follows a character other than `.`. Then the extension is the base name's suffix from its last `.`. |
| `PosixPath.FileNameParts` | utils/exif_utils.py:37-38 | Take a file `stem.ext` under a directory, where the stem is not all dots, the parts hold no separator and `ext` holds no `.`. Its base name is `stem.ext` and its split is `(dir + stem, "." + ext)`. |
| `PosixPath.DotfileHasNoExtension` | utils/exif_utils.py:38 | A dotfile whose name holds no other `.` has no extension. |
| `PosixPath.LowerSpec` | utils/exif_utils.py:38 | Lower-casing keeps the length and every character that is not `A`–`Z`. It maps `A`–`Z` to `a`–`z` and leaves no upper-case ASCII letter. |
| `ExifScenarios.OriginalBeatsImageDateTime` | utils/exif_utils.py:9-13 | With both `DateTimeOriginal` and `Image DateTime` present, the first one is reported, with source `DateTimeOriginal`. |
| `ExifScenarios.EmptyOriginalIsSkipped` | utils/exif_utils.py:60-65 | An empty `DateTimeOriginal` is skipped, and `DateTimeDigitized` is reported. |
| `ExifScenarios.NoTimestampIsNotAnError` | utils/exif_utils.py:59-65 | With none of the three tags, both timestamp fields are null and the status is still `ok`. |
| `ExifScenarios.EmptyMappingIsOk` | utils/exif_utils.py:55-71 | An empty tag mapping gives the baseline record: every extracted field is null, `exif_present` is false, and the status is `ok`. |
| `ExifScenarios.MissingFile` | utils/exif_utils.py:75-78 | A fault on `/a/b/IMG_0001.JPG` gives status `error` and message `kind: msg`. The extracted fields stay null, yet the file name is `IMG_0001.JPG` and the extension `.jpg`. |
| `ExifScenarios.CameraFileName` | utils/exif_utils.py:37 | The base name of `/a/b/IMG_0001.JPG` is `IMG_0001.JPG`. |
| `ExifScenarios.CameraFileExt` | utils/exif_utils.py:38 | The extension of `/a/b/IMG_0001.JPG` is `.jpg`, lower-cased. |
| `ExifScenarios.DotfileScenario` | utils/exif_utils.py:38 | `/home/u/.bashrc` has no extension. |
| `ExifScenarios.DoubleExtensionScenario` | utils/exif_utils.py:37-38 | For `trip/backup.tar.GZ` the base name is `backup.tar.GZ` and the extension is `.gz`: the last `.` starts it. |

The record invariant `Coherent` goes one way only: an error implies null
extraction fields, not the converse. The code allows an `ok` record whose
extraction fields are all null: a file whose decoded tag mapping is empty
(`EmptyMappingIsOk`). So "all extraction fields null" does not imply
`status = "error"`, and the model follows the code.

## Left out

- Opening the file and `exifread.process_file` are not part of this model. Their outcome is the `TagSource` parameter, either a decoded tag mapping or a fault.
- `str(v)` on exifread tag objects is not modelled. A tag value is taken as its display string already, and `None` as `None`.
- `type(e).__name__` and `str(e)` are opaque strings, the fault's `kind` and `msg`.
- An exception raised after decoding is not modelled. `_safe_get` would only raise inside a tag object's `str()`, which would leave the fields written before it in place with status `error`. The model's fault comes from opening or decoding, before any field is written.
- The result dictionary, whose values are of type `Any`, is the datatype `Record`. `AsDict` gives its 13-key view; the key order of the Python dictionary is not modelled.
- `GPS_TAGS` is modelled as four named constants rather than a dictionary looked up by `"lat"`, `"lat_ref"`, `"lon"` and `"lon_ref"`.
- Paths follow POSIX `os.path` (`/` only). Windows `ntpath` behaviour, with `\` and drive letters, is not modelled.
- `str.lower` is modelled for ASCII letters only. Unicode case mapping is not modelled.
- The GPS values are passed through as raw strings, as in the source. No conversion to decimal degrees exists to model.
