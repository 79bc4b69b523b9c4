/**
  The multer configuration for audio uploads: where a file is stored, the
  name it is stored under, and the filter that admits only `.mp3` files.
  The generated UUID is taken as a parameter.
 */
module Upload {
  import opened Wrappers
  import opened Js

  /** The directory every accepted upload is written to. */
  const MediaDirectory := "media"

  /** s ends with suffix, compared character by character (so case-sensitively). */
  predicate EndsWith(s: string, suffix: string)
  {
    |s| >= |suffix| && s[|s| - |suffix|..] == suffix
  }

  /** The last element of `name.split('.')`, i.e. what `.pop()` returns. */
  function LastSegment(name: string): (last: string)
    ensures '.' !in last
  {
    var parts := Split(name, '.');
    parts[|parts| - 1]
  }

  /** How the last segment of a name relates to that of the name without its first character. */
  lemma LastSegmentOfTail(name: string)
    requires name != []
    ensures var rest := Split(name[1..], '.');
      if name[0] != '.' && |rest| == 1 then LastSegment(name) == name && '.' !in name
      else LastSegment(name) == LastSegment(name[1..]) && '.' in name
  {
    var rest := Split(name[1..], '.');
    var parts := Split(name, '.');
    if name[0] != '.' && |rest| == 1 {
      JoinSplit(name[1..], '.');
      assert rest[0] == name[1..];
      assert parts == [[name[0]] + name[1..]];
      assert [name[0]] + name[1..] == name;
    } else if name[0] == '.' {
      assert parts == [""] + rest;
    } else {
      assert parts == [[name[0]] + rest[0]] + rest[1..];
      assert '.' in name[1..];
      var i :| 0 <= i < |name[1..]| && name[1..][i] == '.';
      assert name[i + 1] == '.';
    }
  }

  /**
    The last segment is the dot-free tail of the name: the text after the
    last '.', or the whole name when it has no '.' at all.
   */
  lemma {:induction false} LastSegmentIsTextAfterLastDot(name: string)
    ensures var last := LastSegment(name);
      '.' !in last && EndsWith(name, last) &&
      (last == name || name[|name| - |last| - 1] == '.')
    ensures '.' !in name <==> LastSegment(name) == name
    decreases |name|
  {
    var parts := Split(name, '.');
    assert '.' !in parts[|parts| - 1];
    if name != [] {
      LastSegmentIsTextAfterLastDot(name[1..]);
      LastSegmentOfTail(name);
      var last := LastSegment(name);
      if last != name {
        var tail := name[1..];
        assert last == LastSegment(tail);
        assert EndsWith(tail, last);
        assert name[|name| - |last|..] == tail[|tail| - |last|..];
        if last == tail {
          assert name[|name| - |last| - 1] == name[0] == '.';
        } else {
          assert name[|name| - |last| - 1] == tail[|tail| - |last| - 1];
        }
      }
    }
  }

  /** After a '.', a dot-free tail is the last segment, whatever precedes the '.'. */
  lemma LastSegmentAfterDot(p: string, q: string)
    requires '.' !in q
    ensures LastSegment(p + "." + q) == q
  {
    var name := p + "." + q;
    LastSegmentIsTextAfterLastDot(name);
    var last := LastSegment(name);
    var n := |name|;
    assert name[n - |q|..] == q;
    assert name[n - |q| - 1] == '.';
    assert last == name[n - |q|..];
  }

  /** The extension from the `filename` callback: the last '.'-segment, or "mp3" when that is empty. */
  function Extension(originalName: string): (ext: string)
    ensures ext != [] && '.' !in ext
  {
    var last := LastSegment(originalName);
    LastSegmentIsTextAfterLastDot(originalName);
    if last != "" then last else "mp3"
  }

  /** An empty last segment (an empty name, or one ending in '.') falls back to "mp3"; otherwise the segment is kept. */
  lemma ExtensionFallback(originalName: string)
    ensures originalName == [] || originalName[|originalName| - 1] == '.' ==> Extension(originalName) == "mp3"
    ensures originalName != [] && originalName[|originalName| - 1] != '.' ==>
      Extension(originalName) == LastSegment(originalName) && EndsWith(originalName, Extension(originalName))
  {
    LastSegmentIsTextAfterLastDot(originalName);
  }

  /** The stored file name `${uuid}.${extension}`. */
  function StoredName(uuid: string, originalName: string): (stored: string)
    ensures |stored| > |uuid| + 1 && stored[..|uuid|] == uuid && stored[|uuid|] == '.'
    ensures stored[|uuid| + 1..] == Extension(originalName) && '.' !in stored[|uuid| + 1..]
  {
    uuid + "." + Extension(originalName)
  }

  /**
    For a dot-free id (a UUID is hex digits and dashes) the stored name splits
    into exactly the id and the extension: one '.', nothing else.
   */
  lemma StoredNameShape(uuid: string, originalName: string)
    requires '.' !in uuid
    ensures Split(StoredName(uuid, originalName), '.') == [uuid, Extension(originalName)]
  {
    var ext := Extension(originalName);
    SplitJoin([uuid, ext], '.');
    assert Join([uuid, ext], ".") == uuid + "." + ext;
  }

  /** Deriving the extension again from a stored name gives the same extension, whatever the id is. */
  lemma StoredNameKeepsExtension(uuid: string, originalName: string)
    ensures Extension(StoredName(uuid, originalName)) == Extension(originalName)
  {
    LastSegmentAfterDot(uuid, Extension(originalName));
  }

  /** What `fileFilter` passes to its callback: an error (or null) and whether to accept. */
  datatype FilterDecision = FilterDecision(error: Option<string>, accept: bool)

  const RejectionMessage := "Only mp3 files are allowed"

  /** The test `/\.(mp3)$/`: a '.', then "mp3", at the very end of the name. */
  predicate MatchesMp3Pattern(name: string)
    ensures MatchesMp3Pattern(name) <==> EndsWith(name, ".mp3")
  {
    |name| >= 4 && name[|name| - 4] == '.' && name[|name| - 3] == 'm' &&
    name[|name| - 2] == 'p' && name[|name| - 1] == '3'
  }

  /** `fileFilter`: accepts exactly the names ending in ".mp3"; a rejection carries an error. */
  function FileFilter(originalName: string): (d: FilterDecision)
    ensures d.accept <==> EndsWith(originalName, ".mp3")
    ensures d.accept <==> d.error.None?
    ensures !d.accept ==> d.error == Some(RejectionMessage)
  {
    if !MatchesMp3Pattern(originalName) then FilterDecision(Some(RejectionMessage), false)
    else FilterDecision(None, true)
  }

  /** The test is case-sensitive: ".MP3" and ".Mp3" are rejected. */
  lemma FilterIsCaseSensitive(stem: string)
    ensures !FileFilter(stem + ".MP3").accept && !FileFilter(stem + ".Mp3").accept
    ensures FileFilter(stem + ".mp3").accept
  {
    assert (stem + ".MP3")[|stem| + 1] == 'M';
    assert (stem + ".Mp3")[|stem| + 1] == 'M';
  }

  /** Every accepted file gets the stored extension "mp3". */
  lemma AcceptedFileHasMp3Extension(originalName: string)
    requires FileFilter(originalName).accept
    ensures Extension(originalName) == "mp3"
  {
    var n := |originalName|;
    assert originalName == originalName[..n - 4] + "." + "mp3";
    LastSegmentAfterDot(originalName[..n - 4], "mp3");
  }

  /** Where multer puts a file once the filter has admitted it. */
  datatype StoredFile = StoredFile(destination: string, filename: string)

  /**
    The whole storage decision for one upload: rejected unless the name ends
    in ".mp3"; otherwise written to "media" under `<uuid>.mp3`, whatever the
    original name was.
   */
  function Store(uuid: string, originalName: string): (r: Option<StoredFile>)
    ensures r.Some? <==> EndsWith(originalName, ".mp3")
    ensures r.Some? ==> r.value == StoredFile(MediaDirectory, uuid + ".mp3")
  {
    if FileFilter(originalName).accept then
      AcceptedFileHasMp3Extension(originalName);
      Some(StoredFile(MediaDirectory, StoredName(uuid, originalName)))
    else None
  }
}
