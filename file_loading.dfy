/** Trial parsing of the secrets file: `load_file` and
    `validate_file_format`. The decoders are outside the model; what each
    made of the file is an input. */
module FileLoading {
  import opened Config

  /** The formats, in the order they are tried. */
  datatype Format = Toml | Json | Yaml | Bespon

  function Rank(f: Format): nat {
    match f
    case Toml => 0
    case Json => 1
    case Yaml => 2
    case Bespon => 3
  }

  /** What each decoder made of the file: the dict it returned, or `None`
      when it raised its decoding error. */
  datatype Decoded = Decoded(toml: Option<Entries>, json: Option<Entries>, yaml: Option<Entries>, bespon: Option<Entries>)
  {
    function Attempt(f: Format): Option<Entries> {
      match f
      case Toml => toml
      case Json => json
      case Yaml => yaml
      case Bespon => bespon
    }
  }

  /** The first decoder, in order, that accepted the file, and its result. */
  function FirstSuccess(d: Decoded): (r: Option<(Format, Entries)>)
    ensures r.None? <==> forall f :: d.Attempt(f).None?
    ensures r.Some? ==> d.Attempt(r.value.0) == Some(r.value.1)
    ensures r.Some? ==> forall f :: Rank(f) < Rank(r.value.0) ==> d.Attempt(f).None?
  {
    assert d.Attempt(Toml) == d.toml && d.Attempt(Json) == d.json;
    assert d.Attempt(Yaml) == d.yaml && d.Attempt(Bespon) == d.bespon;
    if d.toml.Some? then Some((Toml, d.toml.value))
    else if d.json.Some? then Some((Json, d.json.value))
    else if d.yaml.Some? then Some((Yaml, d.yaml.value))
    else if d.bespon.Some? then Some((Bespon, d.bespon.value))
    else None
  }

  /** `load_file(fn, raise_bad_format)`: a missing file gives an empty dict,
      even when bad formats raise. */
  function LoadFile(isFile: bool, d: Decoded, raiseBadFormat: bool): (r: Result<Entries>)
    ensures !isFile ==> r == Ok([])
    ensures r.Err? <==> isFile && raiseBadFormat && FirstSuccess(d).None?
    ensures r.Err? ==> r.error == UnrecognizedFormat
    ensures isFile && r.Ok? ==>
      (exists f :: d.Attempt(f) == Some(r.value) && forall g :: Rank(g) < Rank(f) ==> d.Attempt(g).None?)
      || (!raiseBadFormat && r.value == [] && forall f :: d.Attempt(f).None?)
  {
    if !isFile then Ok([])
    else
      match FirstSuccess(d)
      case Some((_, secrets)) => Ok(secrets)
      case None => if raiseBadFormat then Err(UnrecognizedFormat) else Ok([])
  }

  /** `validate_file_format(fn)`: `True` when some decoder accepts the
      file; raises when the file is missing or none does. */
  function ValidateFileFormat(isFile: bool, d: Decoded): (r: Result<bool>)
    ensures r.Ok? <==> isFile && exists f :: d.Attempt(f).Some?
    ensures r.Ok? ==> r.value
    ensures !isFile ==> r == Err(FileNotFound)
    ensures isFile && r.Err? ==> r.error == UnrecognizedFormat
  {
    if !isFile then Err(FileNotFound)
    else if FirstSuccess(d).Some? then Ok(true)
    else Err(UnrecognizedFormat)
  }

  /** The validator accepts exactly the existing files that `load_file`
      loads without raising when bad formats raise; both reject an
      unrecognised file the same way, and disagree only on a missing one. */
  lemma ValidateMatchesLoad(isFile: bool, d: Decoded)
    ensures ValidateFileFormat(isFile, d).Ok? <==> isFile && LoadFile(isFile, d, true).Ok?
    ensures LoadFile(isFile, d, true).Err? ==> ValidateFileFormat(isFile, d) == Err(UnrecognizedFormat)
    ensures !isFile ==> LoadFile(isFile, d, true) == Ok([]) && ValidateFileFormat(isFile, d) == Err(FileNotFound)
  {
  }
}
