/** Creating a catalogue exercise from the admin panel
    (`pages/api/admin/exercises.js`): the guards that answer before anything
    is stored, and what becomes of an attached image given as a data URL
    (section 3 of RFC 2397). */
module AdminExercises {
  import opened Wrappers
  import opened Strings

  /** `MAX_BASE64_LEN`: twenty mebibytes' worth of characters. */
  const MaxDataUrlLength: nat := 20 * 1024 * 1024

  const ImagePrefix: string := "data:image/"
  const Base64Marker: string := ";base64,"
  const ImageDir: string := "/images/exercises/"

  // ------------------------------------------------------------ data URL

  /** `[a-zA-Z0-9+.]`. */
  predicate IsMimeChar(c: char)
  {
    ('a' <= c <= 'z') || ('A' <= c <= 'Z') || ('0' <= c <= '9') || c == '+' || c == '.'
  }

  predicate AllMimeChars(s: string)
  {
    forall i :: 0 <= i < |s| ==> IsMimeChar(s[i])
  }

  /** What the regular expression's `.` does not match. */
  predicate IsLineTerminator(c: char)
  {
    c == '\n' || c == '\r' || c == '\U{2028}' || c == '\U{2029}'
  }

  predicate NoLineTerminator(s: string)
  {
    forall i :: 0 <= i < |s| ==> !IsLineTerminator(s[i])
  }

  /** The length of the longest prefix of `s` made of mime characters. */
  function MimeRun(s: string): (n: nat)
    ensures n <= |s| && AllMimeChars(s[..n])
    ensures n == |s| || !IsMimeChar(s[n])
  {
    if s != [] && IsMimeChar(s[0]) then
      var n := MimeRun(s[1..]);
      n + 1
    else 0
  }

  /** `/^data:(image\/[a-zA-Z0-9+.]+);base64,(.*)$/`: the mime type and the
      payload of an image data URL in base64. */
  function MatchDataUrl(s: string): (r: Option<(string, string)>)
    ensures r.Some? ==>
      |r.value.0| > 6
      && (var sub := r.value.0[6..];
          r.value.0 == "image/" + sub && sub != [] && AllMimeChars(sub)
          && NoLineTerminator(r.value.1)
          && s == ImagePrefix + sub + Base64Marker + r.value.1)
  {
    if !StartsWith(s, ImagePrefix) then None
    else
      var rest := s[|ImagePrefix|..];
      var n := MimeRun(rest);
      var after := rest[n..];
      if n == 0 || !StartsWith(after, Base64Marker) then None
      else
        var data := after[|Base64Marker|..];
        if !NoLineTerminator(data) then None
        else
          DataUrlParts(s, n);
          Some(("image/" + rest[..n], data))
  }

  lemma DataUrlParts(s: string, n: nat)
    requires StartsWith(s, ImagePrefix)
    requires n <= |s| - |ImagePrefix| && StartsWith(s[|ImagePrefix| + n..], Base64Marker)
    ensures var rest := s[|ImagePrefix|..];
      s == ImagePrefix + rest[..n] + Base64Marker + rest[n..][|Base64Marker|..]
      && ("image/" + rest[..n])[6..] == rest[..n]
  {
    var rest := s[|ImagePrefix|..];
    assert s == s[..|ImagePrefix|] + rest;
    assert rest == rest[..n] + rest[n..];
    assert rest[n..] == s[|ImagePrefix| + n..];
    assert rest[n..] == Base64Marker + rest[n..][|Base64Marker|..];
  }

  /** Every base64 image data URL with a valid subtype and a one-line payload
      is recognised, with its mime type and payload. */
  lemma MatchDataUrlComplete(sub: string, data: string)
    requires sub != [] && AllMimeChars(sub) && NoLineTerminator(data)
    ensures MatchDataUrl(ImagePrefix + sub + Base64Marker + data) == Some(("image/" + sub, data))
  {
    var tail := Base64Marker + data;
    var rest := sub + tail;
    var s := ImagePrefix + rest;
    assert ImagePrefix + sub + Base64Marker + data == s;
    assert StartsWith(s, ImagePrefix) && s[|ImagePrefix|..] == rest by {
      assert s[..|ImagePrefix|] == ImagePrefix;
    }
    assert MimeRun(rest) == |sub| by {
      MimeRunOf(sub, tail);
    }
    assert rest[|sub|..] == tail && rest[..|sub|] == sub;
    assert StartsWith(tail, Base64Marker) && tail[|Base64Marker|..] == data by {
      assert tail[..|Base64Marker|] == Base64Marker;
    }
    MatchDataUrlOf(s, |sub|);
  }

  /** The match in terms of the three parts it checks. */
  lemma MatchDataUrlOf(s: string, n: nat)
    requires StartsWith(s, ImagePrefix)
    requires MimeRun(s[|ImagePrefix|..]) == n && n > 0
    requires StartsWith(s[|ImagePrefix|..][n..], Base64Marker)
    requires NoLineTerminator(s[|ImagePrefix|..][n..][|Base64Marker|..])
    ensures MatchDataUrl(s) == Some(("image/" + s[|ImagePrefix|..][..n], s[|ImagePrefix|..][n..][|Base64Marker|..]))
  {
  }

  lemma {:induction false} MimeRunOf(sub: string, tail: string)
    requires AllMimeChars(sub) && tail != [] && !IsMimeChar(tail[0])
    ensures MimeRun(sub + tail) == |sub|
  {
    if sub != [] {
      assert (sub + tail)[1..] == sub[1..] + tail;
      MimeRunOf(sub[1..], tail);
    } else {
      assert sub + tail == tail;
    }
  }

  /** `mime.split('/')[1].split('+')[0]` for a matched mime type: the subtype
      up to its first `+`. */
  function Extension(mime: string): (ext: string)
    requires |mime| > 6 && mime == "image/" + mime[6..] && AllMimeChars(mime[6..])
    ensures var sub := mime[6..];
      |ext| <= |sub| && sub[..|ext|] == ext && '+' !in ext && (|ext| == |sub| || sub[|ext|] == '+')
  {
    var sub := mime[6..];
    assert '/' !in sub;
    SplitPrefix("image", sub, '/');
    assert mime == "image" + ['/'] + sub;
    SplitNoSeparator(sub, '/');
    SplitFirst(sub, '+');
    Split(Split(mime, '/')[1], '+')[0]
  }

  /** A subtype with a `+` suffix is saved under the part before it. */
  lemma ExtensionOfSuffixed(base: string, suffix: string)
    requires AllMimeChars(base + "+" + suffix) && '+' !in base
    ensures Extension("image/" + (base + "+" + suffix)) == base
  {
    var sub := base + "+" + suffix;
    assert ("image/" + sub)[6..] == sub;
    var ext := Extension("image/" + sub);
    assert sub[|base|] == '+';
    assert forall i :: 0 <= i < |base| ==> sub[i] == base[i];
    assert |ext| == |base|;
    assert ext == sub[..|base|];
  }

  /** A subtype without `+` is the extension itself. */
  lemma ExtensionOfPlain(sub: string)
    requires sub != [] && AllMimeChars(sub) && '+' !in sub
    ensures Extension("image/" + sub) == sub
  {
    assert ("image/" + sub)[6..] == sub;
  }

  /** `image/svg+xml` is saved as `.svg`. */
  lemma SvgExtension()
    ensures Extension("image/svg+xml") == "svg"
  {
    assert "image/svg+xml" == "image/" + ("svg" + "+" + "xml");
    ExtensionOfSuffixed("svg", "xml");
  }

  // -------------------------------------------------------------- handler

  /** The caller `requireAuth` found, with its admin flag. */
  datatype Caller = Caller(admin: bool)

  /** What the optional cloud upload gave: it was not configured, it failed
      (an exception), or it answered with a URL that may be missing. */
  datatype Upload = NotConfigured | UploadFailed | Uploaded(url: Option<string>)

  /** An admin's POST with a name: every guard before the image passes. */
  predicate Admitted(user: Option<Caller>, httpMethod: string, name: Option<string>)
  {
    user.Some? && user.value.admin && httpMethod == "POST" && name.Some? && name.value != []
  }

  /** `imageBase64 && String(imageBase64).startsWith('data:')`. */
  predicate IsDataUrl(image: Option<string>)
  {
    image.Some? && StartsWith(image.value, "data:")
  }

  /** A data URL over the size guard. */
  predicate Oversized(image: Option<string>)
  {
    IsDataUrl(image) && |image.value| > MaxDataUrlLength
  }

  /** A data URL within the size guard that the pattern matches. */
  predicate Matched(image: Option<string>)
  {
    IsDataUrl(image) && |image.value| <= MaxDataUrlLength && MatchDataUrl(image.value).Some?
  }

  /** The upload answered with a non-empty URL. */
  predicate HasCloudUrl(upload: Upload)
  {
    upload.Uploaded? && upload.url.Some? && upload.url.value != []
  }

  /** A matched image that can be stored nowhere: the upload failed, or
      there is no cloud URL and the server may not write files. */
  predicate Unsaveable(image: Option<string>, upload: Upload, production: bool)
  {
    Matched(image) && (upload.UploadFailed? || (!HasCloudUrl(upload) && production))
  }

  /** The guards and the image handling of the handler. `upload` stands for
      the outcome of the Cloudinary request, `production` for
      `NODE_ENV === 'production'` and `fileStem` for the random file name.
      `status` is the HTTP status; on 201 `imagePath` is what gets stored
      with the exercise: the cloud URL when there is one, else the local
      file named after the image's extension, and none when the request
      carries no matching data URL. */
  method CreateExercise(user: Option<Caller>, httpMethod: string, name: Option<string>,
                        image: Option<string>, upload: Upload, production: bool, fileStem: string)
    returns (status: nat, imagePath: Option<string>)
    ensures user.None? ==> status == 401
    ensures user.Some? && !user.value.admin ==> status == 403
    ensures user.Some? && user.value.admin && httpMethod != "POST" ==> status == 405
    ensures user.Some? && user.value.admin && httpMethod == "POST" && (name.None? || name.value == []) ==> status == 400
    ensures status == 413 <==> Admitted(user, httpMethod, name) && Oversized(image)
    ensures status == 500 <==> Admitted(user, httpMethod, name) && Unsaveable(image, upload, production)
    ensures status == 201 <==>
      Admitted(user, httpMethod, name) && !Oversized(image) && !Unsaveable(image, upload, production)
    ensures status in {201, 400, 401, 403, 405, 413, 500}
    ensures status != 201 ==> imagePath.None?
    ensures status == 201 && !Matched(image) ==> imagePath.None?
    ensures status == 201 && Matched(image) && HasCloudUrl(upload) ==> imagePath == upload.url
    ensures status == 201 && Matched(image) && !HasCloudUrl(upload) ==>
      !production && imagePath == Some(ImageDir + fileStem + "." + Extension(MatchDataUrl(image.value).value.0))
  {
    if user.None? {
      return 401, None;
    }
    if !user.value.admin {
      return 403, None;
    }
    if httpMethod != "POST" {
      return 405, None;
    }
    if name.None? || name.value == [] {
      return 400, None;
    }
    imagePath := None;
    if image.Some? && StartsWith(image.value, "data:") {
      if |image.value| > MaxDataUrlLength {
        return 413, None;
      }
      var matches := MatchDataUrl(image.value);
      if matches.Some? {
        if upload.UploadFailed? {
          return 500, None;
        }
        if upload.Uploaded? && upload.url.Some? && upload.url.value != [] {
          imagePath := upload.url;
        }
        if imagePath.None? {
          if production {
            return 500, None;
          }
          var ext := Extension(matches.value.0);
          imagePath := Some(ImageDir + fileStem + "." + ext);
        }
      }
    }
    status := 201;
  }
}
