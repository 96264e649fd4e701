/**
 * The upload control's change handler (components/FileUpload.tsx): a size guard,
 * then a MIME-prefix guard, then a descriptor built from the file and the payload
 * of the data URL the browser read it into.
 */
module FileUpload {
  import opened Types

  /** 20 MiB, the largest accepted file size in bytes. */
  const MaxUploadBytes: nat := 20 * 1024 * 1024

  /** `type.startsWith('video/')` */
  predicate IsVideoType(mime: string) { "video/" <= mime }

  /** `type.startsWith('image/')` */
  predicate IsImageType(mime: string) { "image/" <= mime }

  /** What the upload control lets through: not over the ceiling and an image or video type. */
  predicate Acceptable(f: File) {
    f.size <= MaxUploadBytes && (IsVideoType(f.mimeType) || IsImageType(f.mimeType))
  }

  /** The branch a rejected file leaves on (each shows its own alert). */
  datatype Rejection = TooLarge | UnsupportedType

  /**
   * What one change event ends in: nothing chosen, a rejection, a file that passed
   * both guards but whose read never loaded (no handler reports it, nothing is
   * passed on), or a descriptor passed to `onFileSelect`.
   */
  datatype Selection = NoFile | Rejected(reason: Rejection) | NotLoaded | Accepted(media: MediaFile)

  // ----- String.prototype.split with a one-character separator -----

  /**
   * The segments of `s` between occurrences of `sep`; an empty string gives one
   * empty segment, as JavaScript's `split` does.
   */
  function Split(s: string, sep: char): (parts: seq<string>)
    ensures |parts| >= 1
    ensures forall i :: 0 <= i < |parts| ==> sep !in parts[i]
    decreases |s|
  {
    if |s| == 0 then [""]
    else
      var rest := Split(s[1..], sep);
      if s[0] == sep then [""] + rest
      else [[s[0]] + rest[0]] + rest[1..]
  }

  /** The segments glued back together with `sep` between neighbours (`Array.prototype.join`). */
  function Join(parts: seq<string>, sep: char): string
  {
    if |parts| == 0 then ""
    else if |parts| == 1 then parts[0]
    else parts[0] + [sep] + Join(parts[1..], sep)
  }

  lemma {:induction false} SplitThenJoin(s: string, sep: char)
    ensures Join(Split(s, sep), sep) == s
    decreases |s|
  {
    if |s| > 0 {
      var rest := Split(s[1..], sep);
      SplitThenJoin(s[1..], sep);
      if s[0] == sep {
        assert Split(s, sep) == [""] + rest;
        assert ([""] + rest)[1..] == rest;
        assert Join(Split(s, sep), sep) == "" + [sep] + s[1..];
        assert s == [s[0]] + s[1..];
      } else if |rest| == 1 {
        assert Split(s, sep) == [[s[0]] + rest[0]];
        assert s == [s[0]] + s[1..];
      } else {
        var parts := [[s[0]] + rest[0]] + rest[1..];
        assert Split(s, sep) == parts;
        assert parts[1..] == rest[1..];
        assert Join(rest, sep) == rest[0] + [sep] + Join(rest[1..], sep);
        assert Join(parts, sep) == [s[0]] + rest[0] + [sep] + Join(rest[1..], sep);
        assert s == [s[0]] + s[1..];
      }
    }
  }

  lemma {:induction false} SplitWithoutSeparator(a: string, sep: char)
    requires sep !in a
    ensures Split(a, sep) == [a]
    decreases |a|
  {
    if |a| > 0 {
      SplitWithoutSeparator(a[1..], sep);
      assert [a[0]] + a[1..] == a;
    }
  }

  /** Splitting after a separator-free first segment peels that segment off. */
  lemma {:induction false} SplitAfterSegment(a: string, sep: char, t: string)
    requires sep !in a
    ensures Split(a + [sep] + t, sep) == [a] + Split(t, sep)
    decreases |a|
  {
    var s := a + [sep] + t;
    if |a| == 0 {
      assert s == [sep] + t;
      assert s[1..] == t;
    } else {
      assert s[1..] == a[1..] + [sep] + t;
      SplitAfterSegment(a[1..], sep, t);
      assert [a[0]] + a[1..] == a;
    }
  }

  lemma {:induction false} JoinThenSplit(parts: seq<string>, sep: char)
    requires |parts| >= 1
    requires forall i :: 0 <= i < |parts| ==> sep !in parts[i]
    ensures Split(Join(parts, sep), sep) == parts
    decreases |parts|
  {
    if |parts| == 1 {
      SplitWithoutSeparator(parts[0], sep);
    } else {
      JoinThenSplit(parts[1..], sep);
      SplitAfterSegment(parts[0], sep, Join(parts[1..], sep));
      assert [parts[0]] + parts[1..] == parts;
    }
  }

  lemma {:induction false} SplitFindsSeparator(s: string, sep: char)
    requires sep in s
    ensures |Split(s, sep)| >= 2
    decreases |s|
  {
    if s[0] != sep {
      assert sep in s[1..] by {
        var i :| 0 <= i < |s| && s[i] == sep;
        assert s[1..][i - 1] == sep;
      }
      SplitFindsSeparator(s[1..], sep);
    }
  }

  // ----- the data URL payload -----

  /** A data URL as section 3 of RFC 2397 writes a base64 one: "data:" mediatype ";base64," data. */
  function DataUrl(mime: string, payload: string): string
  {
    "data:" + mime + ";base64," + payload
  }

  /** A character of the base64 alphabet (section 4 of RFC 4648), padding included. */
  predicate IsBase64Char(c: char) {
    ('A' <= c <= 'Z') || ('a' <= c <= 'z') || ('0' <= c <= '9') || c == '+' || c == '/' || c == '='
  }

  predicate IsBase64Text(p: string) {
    forall i :: 0 <= i < |p| ==> IsBase64Char(p[i])
  }

  /** A second segment exists exactly when the string holds the separator. */
  lemma SplitHasSecondSegmentIff(s: string, sep: char)
    ensures |Split(s, sep)| >= 2 <==> sep in s
  {
    if sep in s {
      SplitFindsSeparator(s, sep);
    } else {
      SplitWithoutSeparator(s, sep);
    }
  }

  /**
   * `dataUrl.split(',')[1]`: the second comma-separated segment. It is absent
   * exactly when the data URL holds no comma, and never holds a comma itself.
   */
  function ExtractPayload(dataUrl: string): (r: Option<string>)
    ensures r.None? <==> ',' !in dataUrl
    ensures r.Some? ==> ',' !in r.value
  {
    SplitHasSecondSegmentIff(dataUrl, ',');
    var parts := Split(dataUrl, ',');
    if |parts| >= 2 then Some(parts[1]) else None
  }

  /** The payload is the segment between the first comma and the second one (or the end). */
  lemma PayloadIsSecondSegment(head: string, p: string, tail: string)
    requires ',' !in head && ',' !in p
    requires tail == [] || tail[0] == ','
    ensures ExtractPayload(head + [','] + p + tail) == Some(p)
  {
    SplitAfterSegment(head, ',', p + tail);
    assert head + [','] + p + tail == head + [','] + (p + tail);
    if tail == [] {
      SplitWithoutSeparator(p, ',');
      assert p + tail == p;
    } else {
      SplitAfterSegment(p, ',', tail[1..]);
      assert p + tail == p + [','] + tail[1..];
    }
  }

  /** Reading back the payload of a base64 data URL gives exactly the payload written. */
  lemma DataUrlRoundTrip(mime: string, p: string)
    requires ',' !in mime
    requires IsBase64Text(p)
    ensures ExtractPayload(DataUrl(mime, p)) == Some(p)
  {
    var head := "data:" + mime + ";base64";
    assert ',' !in head by {
      assert head == "data:" + mime + ";base64";
      assert ',' !in "data:" && ',' !in ";base64";
    }
    assert DataUrl(mime, p) == head + [','] + p + [];
    PayloadIsSecondSegment(head, p, []);
  }

  // ----- the change handler -----

  /**
   * `handleFileChange`: `chosen` is `e.target.files?.[0]`, `loaded` the data URL
   * the browser's reader delivered to its load callback (none when the read failed
   * or was aborted) and `previewUrl` the object URL made for the file.
   */
  function HandleFileChange(chosen: Option<File>, loaded: Option<string>, previewUrl: string): (r: Selection)
    ensures chosen.None? ==> r == NoFile
    ensures r.Accepted? <==> chosen.Some? && Acceptable(chosen.value) && loaded.Some?
    ensures r == NotLoaded <==> chosen.Some? && Acceptable(chosen.value) && loaded.None?
    ensures chosen.Some? && chosen.value.size > MaxUploadBytes ==> r == Rejected(TooLarge)
    ensures r == Rejected(UnsupportedType) <==>
              chosen.Some? && chosen.value.size <= MaxUploadBytes &&
              !IsVideoType(chosen.value.mimeType) && !IsImageType(chosen.value.mimeType)
    ensures r.Accepted? ==>
              && r.media.file == chosen.value
              && r.media.mimeType == chosen.value.mimeType
              && r.media.previewUrl == previewUrl
              && r.media.base64 == ExtractPayload(loaded.value)
              && (r.media.kind == Video <==> IsVideoType(chosen.value.mimeType))
              && (r.media.kind == Image ==> IsImageType(chosen.value.mimeType))
  {
    match chosen
    case None => NoFile
    case Some(file) =>
      if file.size > MaxUploadBytes then Rejected(TooLarge)
      else
        var isVideo := IsVideoType(file.mimeType);
        var isImage := IsImageType(file.mimeType);
        if !isVideo && !isImage then Rejected(UnsupportedType)
        else
          match loaded
          case None => NotLoaded
          case Some(dataUrl) =>
            Accepted(MediaFile(file, previewUrl, if isVideo then Video else Image,
                               ExtractPayload(dataUrl), file.mimeType))
  }

  /** The size limit is inclusive and has no lower bound: 0 bytes and exactly 20 MiB both pass. */
  lemma SizeBoundaries(id: nat, mime: string, dataUrl: string, previewUrl: string)
    requires IsImageType(mime) || IsVideoType(mime)
    ensures HandleFileChange(Some(File(id, 0, mime)), Some(dataUrl), previewUrl).Accepted?
    ensures HandleFileChange(Some(File(id, 20971520, mime)), Some(dataUrl), previewUrl).Accepted?
    ensures HandleFileChange(Some(File(id, 20971521, mime)), Some(dataUrl), previewUrl) == Rejected(TooLarge)
  {
  }

  /**
   * An accepted file read as a base64 data URL of its own type hands on exactly
   * the bytes' encoding as the descriptor's payload.
   */
  lemma AcceptedPayloadRoundTrip(f: File, p: string, previewUrl: string)
    requires Acceptable(f)
    requires ',' !in f.mimeType
    requires IsBase64Text(p)
    ensures HandleFileChange(Some(f), Some(DataUrl(f.mimeType, p)), previewUrl)
            == Accepted(MediaFile(f, previewUrl, if IsVideoType(f.mimeType) then Video else Image, Some(p), f.mimeType))
  {
    DataUrlRoundTrip(f.mimeType, p);
  }
}
