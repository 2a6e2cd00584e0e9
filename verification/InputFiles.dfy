/** Input files put into the prompt: a byte-bounded read, then a character-bounded text. */
module InputFiles {
  import opened Common
  import opened Text
  import opened Utf8
  import opened ByteReader

  const MAX_INPUT_FILE_CHARS: nat := 50_000
  const MAX_INPUT_FILE_BYTES: nat := MAX_INPUT_FILE_CHARS * 4 + 4

  /** A path, as the operating system holds it; what is shown of it is its lossy decoding. */
  type Path = bytes

  function Display(path: Path): string {
    Lossy(path)
  }

  datatype InputContextError =
    | OpenFailed(path: string)
    | ReadFailed(path: string)
    | InvalidUtf8(path: string)
    | Denied(path: string, reason: string)

  /** `None` when the file cannot be opened, else the answers of its reader. */
  type FileSource = Option<seq<Read>>

  // ----- the bounded read

  /** What the bounded read keeps of a delivery: its bytes, and whether the cap cut them. */
  function Capped(all: Delivery): Result<(bytes, bool), ()> {
    if |all.data| > MAX_INPUT_FILE_BYTES then Ok((all.data[..MAX_INPUT_FILE_BYTES], true))
    else if all.failed then Err(())
    else Ok((all.data, false))
  }

  /** The text of the kept bytes; a character cut by the cap is dropped, nothing else is repaired. */
  function PrefixText(prefix: bytes, truncated: bool): Option<string> {
    match FromUtf8(prefix)
    case Valid(text) => Some(text)
    case Invalid(upTo, errorLen) =>
      if truncated && errorLen.None? && upTo <= |prefix| && FromUtf8(prefix[..upTo]).Valid? then
        Some(FromUtf8(prefix[..upTo]).text)
      else None
  }

  method ReadCapped(answers: seq<Read>) returns (r: Result<(bytes, bool), ()>)
    ensures r == Capped(Delivered(answers))
  {
    ghost var all := Delivered(answers);
    var kept: bytes := [];
    var i := 0;
    assert [] + all.data == all.data;
    while i < |answers|
      invariant i <= |answers| && |kept| <= MAX_INPUT_FILE_BYTES
      invariant var later := Delivered(answers[i..]); all == Delivery(kept + later.data, later.failed)
    {
      var next := answers[i];
      i := i + 1;
      assert answers[i - 1..][1..] == answers[i..];
      if next.Failed? || next.data == [] {
        assert kept + [] == kept;
        return if next.Failed? then Err(()) else Ok((kept, false));
      }
      Assoc(kept, next.data, Delivered(answers[i..]).data);
      var remaining := MAX_INPUT_FILE_BYTES - |kept|;
      if remaining == 0 {
        assert all.data[..MAX_INPUT_FILE_BYTES] == kept;
        return Ok((kept, true));
      }
      var keep := Min(remaining, |next.data|);
      kept := kept + next.data[..keep];
      if keep < |next.data| {
        assert all.data[..MAX_INPUT_FILE_BYTES] == kept;
        return Ok((kept, true));
      }
      assert next.data[..keep] == next.data;
    }
    assert kept + [] == kept;
    return Ok((kept, false));
  }

  method ReadUtf8Prefix(path: Path, file: FileSource) returns (r: Result<(string, bool), InputContextError>)
    ensures r ==
            if file.None? then Err(OpenFailed(Display(path)))
            else match Capped(Delivered(file.value))
              case Err(_) => Err(ReadFailed(Display(path)))
              case Ok((prefix, truncated)) =>
                match PrefixText(prefix, truncated)
                case Some(text) => Ok((text, truncated))
                case None => Err(InvalidUtf8(Display(path)))
  {
    hide FromUtf8, FirstUnit, Capped;
    if file.None? {
      return Err(OpenFailed(Display(path)));
    }
    var kept := ReadCapped(file.value);
    if kept.Err? {
      return Err(ReadFailed(Display(path)));
    }
    var (prefix, truncated) := kept.value;
    match FromUtf8(prefix)
    case Valid(content) =>
      return Ok((content, truncated));
    case Invalid(validUpTo, errorLen) =>
      InvalidMeaning(prefix);
      if truncated && errorLen.None? {
        return Ok((FromUtf8(prefix[..validUpTo]).text, truncated));
      }
      return Err(InvalidUtf8(Display(path)));
  }

  /** An encoded text, or an encoded text and the start of one more character that the cap cut. */
  predicate IsTextUpToCut(prefix: bytes, truncated: bool, s: string, part: bytes) {
    prefix == EncodeAll(s) + part && (part == [] || (truncated && FirstUnit(part).Short?))
  }

  /** The kept bytes are accepted exactly when they have that form. */
  lemma AcceptedIff(prefix: bytes, truncated: bool)
    ensures PrefixText(prefix, truncated).Some? <==>
            exists s: string, part: bytes :: IsTextUpToCut(prefix, truncated, s, part)
  {
    hide FromUtf8, FirstUnit, EncodeAll;
    if PrefixText(prefix, truncated).Some? {
      match FromUtf8(prefix) {
        case Valid(text) =>
          ValidIsEncoding(prefix);
          assert EncodeAll(text) + [] == EncodeAll(text);
          assert IsTextUpToCut(prefix, truncated, text, []);
        case Invalid(upTo, _) =>
          InvalidMeaning(prefix);
          var ok := prefix[..upTo];
          ValidIsEncoding(ok);
          assert IsTextUpToCut(prefix, truncated, FromUtf8(ok).text, prefix[upTo..]);
      }
    }
    forall s: string, part: bytes | IsTextUpToCut(prefix, truncated, s, part)
      ensures PrefixText(prefix, truncated).Some?
    {
      StrictAfterText(s, part);
      UnfoldStrict(part);
      if part != [] {
        InvalidMeaning(prefix);
      }
    }
  }

  // ----- the section of one file

  const TRUNCATION_MARKER: string := "\n[truncated at 50000 characters]"

  function Section(path: string, content: string, marked: bool): string {
    "--- file: " + path + " ---\n" + content + (if marked then TRUNCATION_MARKER else "") + "\n--- end file ---"
  }

  /** `format_file` after the bounded read. */
  function FormatContent(path: string, content: string, truncatedByBytes: bool): string {
    var total := |content|;
    Section(
      path,
      if total > MAX_INPUT_FILE_CHARS then content[..MAX_INPUT_FILE_CHARS] else content,
      truncatedByBytes || total > MAX_INPUT_FILE_CHARS)
  }

  function FormattedFile(path: Path, file: FileSource): Result<string, InputContextError> {
    if file.None? then Err(OpenFailed(Display(path)))
    else match Capped(Delivered(file.value))
      case Err(_) => Err(ReadFailed(Display(path)))
      case Ok((prefix, truncated)) =>
        match PrefixText(prefix, truncated)
        case Some(text) => Ok(FormatContent(Display(path), text, truncated))
        case None => Err(InvalidUtf8(Display(path)))
  }

  method FormatFile(path: Path, file: FileSource) returns (r: Result<string, InputContextError>)
    ensures r == FormattedFile(path, file)
  {
    var content := ReadUtf8Prefix(path, file);
    match content
    case Err(e) => return Err(e);
    case Ok((text, truncated)) => return Ok(FormatContent(Display(path), text, truncated));
  }

  /** A cut encoding yields the longest whole-character prefix of the text. */
  lemma CutText(s: string, n: nat)
    requires n <= ByteLen(s)
    ensures var t := PrefixText(EncodeAll(s)[..n], true);
            t.Some? && t.value <= s && n <= ByteLen(t.value) + 3
  {
    hide FromUtf8, FirstUnit, EncodeAll, Lossy, Settled, Unfinished;
    var all := EncodeAll(s);
    var prefix := all[..n];
    assert prefix + all[n..] == all;
    EncodingIsValid(s);
    PrefixOfValid(prefix, all[n..]);
    var t: string;
    if FromUtf8(prefix).Valid? {
      t := FromUtf8(prefix).text;
      ValidIsEncoding(prefix);
    } else {
      InvalidMeaning(prefix);
      var upTo := FromUtf8(prefix).validUpTo;
      t := FromUtf8(prefix[..upTo]).text;
      ValidIsEncoding(prefix[..upTo]);
    }
    var rest := all[ByteLen(t)..];
    assert all == EncodeAll(t) + rest;
    DecodeEncoded(t, rest);
    LossyRoundTrip(s);
  }

  lemma SectionText(path: string, s: string)
    ensures Section(path, s[..Min(|s|, 50_000)], |s| > 50_000) ==
            "--- file: " + path + " ---\n"
            + (if |s| > 50_000 then s[..50_000] + "\n[truncated at 50000 characters]" else s)
            + "\n--- end file ---"
  {
    if |s| <= 50_000 {
      assert s[..|s|] == s && s + "" == s;
    } else {
      Assoc("--- file: " + path + " ---\n", s[..50_000], TRUNCATION_MARKER);
    }
    var head := "--- file: " + path + " ---\n";
    assert (head + s) + "" == head + s;
  }

  /**
   * A file that holds valid UTF-8 shows its first 50000 characters, all of them if it has no
   * more, and the marker exactly when it has more: the byte cap is never what decides.
   */
  lemma ValidFileShown(path: Path, s: string, answers: seq<Read>)
    requires Delivered(answers).data == EncodeAll(s)
    requires Delivered(answers).failed ==> ByteLen(s) > MAX_INPUT_FILE_BYTES
    ensures FormattedFile(path, Some(answers)) ==
            Ok("--- file: " + Display(path) + " ---\n"
               + (if |s| > 50_000 then s[..50_000] + "\n[truncated at 50000 characters]" else s)
               + "\n--- end file ---")
  {
    hide FromUtf8, FirstUnit, EncodeAll, Section, Lossy;
    SectionText(Display(path), s);
    assert s[..|s|] == s;
    EncodingIsValid(s);
    ByteLenBounds(s);
    if ByteLen(s) > MAX_INPUT_FILE_BYTES {
      CutText(s, MAX_INPUT_FILE_BYTES);
      var t := PrefixText(EncodeAll(s)[..MAX_INPUT_FILE_BYTES], true).value;
      ByteLenBounds(t);
      assert t[..MAX_INPUT_FILE_CHARS] == s[..MAX_INPUT_FILE_CHARS];
    }
  }

  // ----- all files

  type Canonicalize = Path -> Result<Path, InputContextError>
  type FileSystem = Path -> FileSource

  /** The sections of the files that no file before them displays like, in order, or the first failure. */
  function Sections(paths: seq<Path>, canonicalize: Canonicalize, files: FileSystem, seen: set<string>)
    : Result<seq<string>, InputContextError>
  {
    if paths == [] then Ok([])
    else match canonicalize(paths[0])
      case Err(e) => Err(e)
      case Ok(canonical) =>
        if Display(canonical) in seen then Sections(paths[1..], canonicalize, files, seen)
        else match FormattedFile(canonical, files(canonical))
          case Err(e) => Err(e)
          case Ok(section) =>
            match Sections(paths[1..], canonicalize, files, seen + {Display(canonical)})
            case Err(e) => Err(e)
            case Ok(later) => Ok([section] + later)
  }

  method BuildInputFilesContext(paths: seq<Path>, canonicalize: Canonicalize, files: FileSystem)
    returns (r: Result<string, InputContextError>)
    ensures r == match Sections(paths, canonicalize, files, {})
                 case Err(e) => Err(e)
                 case Ok(sections) => Ok(Join(sections, "\n\n"))
  {
    hide FormattedFile, Join, Lossy;
    var seen: set<string> := {};
    var sections: seq<string> := [];
    var i := 0;
    ghost var whole := Sections(paths, canonicalize, files, {});
    assert paths[0..] == paths && (whole.Ok? ==> [] + whole.value == whole.value);
    while i < |paths|
      invariant i <= |paths|
      invariant whole == match Sections(paths[i..], canonicalize, files, seen)
                         case Err(e) => Err(e)
                         case Ok(later) => Ok(sections + later)
    {
      ghost var rest := paths[i..];
      assert rest[1..] == paths[i + 1..] && rest[0] == paths[i];
      var canonical := canonicalize(paths[i]);
      if canonical.Err? {
        return Err(canonical.error);
      }
      i := i + 1;
      var key := Display(canonical.value);
      if key in seen {
        continue;
      }
      var section := FormatFile(canonical.value, files(canonical.value));
      if section.Err? {
        return Err(section.error);
      }
      seen := seen + {key};
      ghost var later := Sections(paths[i..], canonicalize, files, seen);
      if later.Ok? {
        Assoc(sections, [section.value], later.value);
      }
      sections := sections + [section.value];
    }
    assert sections + [] == sections;
    return Ok(Join(sections, "\n\n"));
  }

  /** Naming a file again, by any path that resolves to one displayed alike, never changes the prompt. */
  lemma {:induction false} RepeatedFileIgnored(
    a: seq<Path>, again: Path, b: seq<Path>,
    canonicalize: Canonicalize, files: FileSystem, seen: set<string>)
    requires canonicalize(again).Ok?
    requires Display(canonicalize(again).value) in seen
             || exists p :: p in a && DisplayedAlike(canonicalize(p), canonicalize(again))
    ensures Sections(a + [again] + b, canonicalize, files, seen) == Sections(a + b, canonicalize, files, seen)
  {
    hide FormattedFile, Lossy;
    if a == [] {
      assert (a + [again] + b)[1..] == b && a + b == b;
    } else {
      assert (a + [again] + b)[1..] == a[1..] + [again] + b && (a + b)[1..] == a[1..] + b;
      match canonicalize(a[0]) {
        case Err(_) =>
        case Ok(canonical) =>
          RepeatedFileIgnored(a[1..], again, b, canonicalize, files, seen + {Display(canonical)});
          assert Display(canonical) in seen ==> seen + {Display(canonical)} == seen;
      }
    }
  }

  predicate DisplayedAlike(p: Result<Path, InputContextError>, q: Result<Path, InputContextError>) {
    p.Ok? && q.Ok? && Display(p.value) == Display(q.value)
  }

  /** Paths in UTF-8 are displayed alike only when they are one path; other paths need not be. */
  lemma DisplayTellsTextApart(p: Path, q: Path)
    requires FromUtf8(p).Valid? && FromUtf8(q).Valid?
    ensures Display(p) == Display(q) <==> p == q
  {
    hide FirstUnit, FromUtf8, Lossy, EncodeAll;
    ValidIsEncoding(p);
    ValidIsEncoding(q);
    LossyRoundTrip(FromUtf8(p).text);
    LossyRoundTrip(FromUtf8(q).text);
  }

  /** Two files, of which only the first is shown. */
  lemma FilesDisplayedAlikeMerge(content: string)
    ensures Display([0xFE]) == Display([0xFF])
    ensures Sections([[0xFE], [0xFF]], path => Ok(path), path => Some([Data(EncodeAll(content))]), {}) ==
            Sections([[0xFE]], path => Ok(path), path => Some([Data(EncodeAll(content))]), {})
  {
    var p: Path := [0xFE];
    var q: Path := [0xFF];
    assert FirstUnit(p) == Bad(1) && FirstUnit(q) == Bad(1) && p[1..] == [] && q[1..] == [];
    assert Display(p) == [REPLACEMENT] + Lossy([]) == Display(q);
    hide FormattedFile, Lossy, EncodeAll, FirstUnit;
    var canonicalize: Canonicalize := path => Ok(path);
    var files: FileSystem := path => Some([Data(EncodeAll(content))]);
    assert [p] + [q] + [] == [p, q] && [p] + [] == [p];
    assert p in [p] && DisplayedAlike(canonicalize(p), canonicalize(q));
    RepeatedFileIgnored([p], q, [], canonicalize, files, {});
  }

  // ----- which sections, and which failure

  /** What one file contributes: its section, or why there is none. */
  function Shown(path: Path, canonicalize: Canonicalize, files: FileSystem): Result<string, InputContextError> {
    match canonicalize(path)
    case Err(e) => Err(e)
    case Ok(canonical) => FormattedFile(canonical, files(canonical))
  }

  /** No two of the files are displayed alike, and none like one seen before. */
  predicate AllDifferent(paths: seq<Path>, canonicalize: Canonicalize, seen: set<string>) {
    && (forall i :: 0 <= i < |paths| ==>
          canonicalize(paths[i]).Ok? && Display(canonicalize(paths[i]).value) !in seen)
    && forall i, j :: 0 <= i < j < |paths| ==> !DisplayedAlike(canonicalize(paths[i]), canonicalize(paths[j]))
  }

  /** Different files that can all be shown give their sections, in the order they are named. */
  lemma {:induction false} SectionsInOrder(paths: seq<Path>, canonicalize: Canonicalize, files: FileSystem,
                                           seen: set<string>, sections: seq<string>)
    requires AllDifferent(paths, canonicalize, seen) && |sections| == |paths|
    requires forall i :: 0 <= i < |paths| ==> Shown(paths[i], canonicalize, files) == Ok(sections[i])
    ensures Sections(paths, canonicalize, files, seen) == Ok(sections)
  {
    hide FormattedFile, Lossy;
    if paths != [] {
      var rest := paths[1..];
      var key := Display(canonicalize(paths[0]).value);
      assert Shown(paths[0], canonicalize, files) == Ok(sections[0]);
      forall i | 0 <= i < |rest|
        ensures canonicalize(rest[i]).Ok? && Display(canonicalize(rest[i]).value) !in seen + {key}
        ensures Shown(rest[i], canonicalize, files) == Ok(sections[1..][i])
      {
        assert rest[i] == paths[i + 1] && !DisplayedAlike(canonicalize(paths[0]), canonicalize(paths[i + 1]));
      }
      SectionsInOrder(rest, canonicalize, files, seen + {key}, sections[1..]);
      HeadTail(sections);
    }
  }

  /** The first file that cannot be shown decides the failure, whatever comes after it. */
  lemma {:induction false} FirstFailureDecides(paths: seq<Path>, bad: Path, more: seq<Path>,
                                               canonicalize: Canonicalize, files: FileSystem,
                                               seen: set<string>, sections: seq<string>)
    requires AllDifferent(paths, canonicalize, seen) && |sections| == |paths|
    requires forall i :: 0 <= i < |paths| ==> Shown(paths[i], canonicalize, files) == Ok(sections[i])
    requires Shown(bad, canonicalize, files).Err?
    requires canonicalize(bad).Ok? ==>
               && Display(canonicalize(bad).value) !in seen
               && forall i :: 0 <= i < |paths| ==> !DisplayedAlike(canonicalize(paths[i]), canonicalize(bad))
    ensures Sections(paths + [bad] + more, canonicalize, files, seen) ==
            Err(Shown(bad, canonicalize, files).error)
  {
    hide FormattedFile, Lossy;
    var all := paths + [bad] + more;
    if paths == [] {
      assert all[0] == bad;
    } else {
      var rest := paths[1..];
      var key := Display(canonicalize(paths[0]).value);
      assert Shown(paths[0], canonicalize, files) == Ok(sections[0]);
      assert all[0] == paths[0] && all[1..] == rest + [bad] + more;
      forall i | 0 <= i < |rest|
        ensures canonicalize(rest[i]).Ok? && Display(canonicalize(rest[i]).value) !in seen + {key}
        ensures Shown(rest[i], canonicalize, files) == Ok(sections[1..][i])
        ensures canonicalize(bad).Ok? ==> !DisplayedAlike(canonicalize(rest[i]), canonicalize(bad))
      {
        assert rest[i] == paths[i + 1] && !DisplayedAlike(canonicalize(paths[0]), canonicalize(paths[i + 1]));
      }
      assert canonicalize(bad).Ok? ==> !DisplayedAlike(canonicalize(paths[0]), canonicalize(bad));
      FirstFailureDecides(rest, bad, more, canonicalize, files, seen + {key}, sections[1..]);
    }
  }
}
