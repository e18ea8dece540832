/** The deterministic parts of uploading and sending media
    (wechat/wechat.go, lines 256, 307 and 341-396): the file name taken from
    the path, its suffix, the multipart form fields, and the client message id. */
module Media {
  import opened Wrappers
  import opened Text
  import opened Types

  /** `filepath.Split(path)`'s file part: what follows the last `/`. */
  function BaseName(path: string): (name: string)
    ensures '/' !in name
    ensures |name| <= |path| && name == path[|path| - |name|..]
    ensures |name| < |path| ==> path[|path| - |name| - 1] == '/'
  {
    if path == [] || path[|path| - 1] == '/' then []
    else
      var init := path[..|path| - 1];
      var name := BaseName(init);
      assert init[|init| - |name|..] + [path[|path| - 1]] == path[|path| - |name| - 1..];
      name + [path[|path| - 1]]
  }

  /** A directory and a file name are split back apart. */
  lemma BaseNameOfJoin(dir: string, file: string)
    requires '/' !in file
    ensures BaseName(dir + "/" + file) == file
  {
    var p := dir + "/" + file;
    assert p[|p| - |file|..] == file;
    assert p[|p| - |file| - 1] == '/';
  }

  /** The extension as the source reads it: `fInfo[1]` of the name split at
      dots. A name without a dot has a single part, and the index panics. */
  function AsWrittenExtension(filename: string): string
    requires |Split(filename, '.')| >= 2
  {
    Split(filename, '.')[1]
  }

  /** The test `len(fInfo) != 2` only records an error; a name without a
      dot then reaches `fInfo[1]` with a single part. */
  lemma UndottedNameReachesIndex(filename: string)
    requires '.' !in filename
    ensures Split(filename, '.') == [filename]
  {
  }

  /** `photo` is such a name: its split has no second part. */
  lemma PlainNamePanics()
    ensures !(|Split("photo", '.')| >= 2)
  {
    assert '.' !in "photo" by {
      var s := "photo";
      assert s == ['p', 'h', 'o', 't', 'o'];
    }
    UndottedNameReachesIndex("photo");
  }

  /** The extension with the error the source evidently intends: exactly one
      dot, or `NoSuffix`. */
  function Extension(filename: string): Result<string, Error>
  {
    var parts := Split(filename, '.');
    if |parts| != 2 then Err(NoSuffix) else Ok(parts[1])
  }

  /** A name with exactly one dot yields what follows it. */
  lemma ExtensionOf(stem: string, ext: string)
    requires '.' !in stem && '.' !in ext
    ensures Extension(stem + "." + ext) == Ok(ext)
  {
    assert Join([stem, ext], '.') == stem + "." + ext by {
      assert [stem, ext][1..] == [ext];
    }
    SplitJoin([stem, ext], '.');
  }

  /** A string splits into a single part iff it holds no separator. */
  lemma SplitSingle(s: string, c: char)
    ensures |Split(s, c)| == 1 <==> c !in s
    ensures c !in s ==> Split(s, c) == [s]
  {
    var i := IndexOf(s, c);
    if i < 0 {
      assert Split(s, c) == [s];
    } else {
      assert s[i] == c;
      var tail := Split(s[i + 1..], c);
      assert Split(s, c) == [s[..i]] + tail;
      assert |tail| >= 1;
    }
  }

  /** An extension is found only in a name with exactly one dot, and is
      what follows that dot; a name without a dot is refused. */
  lemma ExtensionSound(filename: string)
    ensures Extension(filename).Ok? ==>
              0 <= IndexOf(filename, '.')
              && filename[IndexOf(filename, '.') + 1..] == Extension(filename).value
              && '.' !in Extension(filename).value
    ensures '.' !in filename ==> Extension(filename) == Err(NoSuffix)
  {
    SplitSingle(filename, '.');
    var i := IndexOf(filename, '.');
    if i >= 0 {
      var rest := filename[i + 1..];
      assert Split(filename, '.') == [filename[..i]] + Split(rest, '.');
      SplitSingle(rest, '.');
    }
  }

  /** The `type` form field. */
  function MimeType(ext: string): string
  {
    if ext == "gif" then "image/gif" else "image/jpeg"
  }

  /** The `mediatype` form field. */
  function MediaType(ext: string): string
  {
    if ext == "gif" then "doc" else "pic"
  }

  /** A gif goes up as a document of type `image/gif`; anything else as a
      picture of type `image/jpeg`. */
  lemma GifIsDocument(ext: string)
    ensures MimeType(ext) == "image/gif" <==> ext == "gif"
    ensures MediaType(ext) == "doc" <==> ext == "gif"
    ensures MediaType(ext) == "pic" <==> MimeType(ext) == "image/jpeg"
  {
  }

  /** The fixed modification date the form always sends. */
  const LastModified: string := "Mon Feb 13 2017 17:27:23 GMT+8000(CST)"

  /** The form fields written after the file part, in order. */
  function UploadForm(filename: string, ext: string, size: nat): (fields: seq<(string, string)>)
    ensures |fields| == 6
  {
    [("id", "WU_FILE_0"), ("name", filename), ("type", MimeType(ext)),
     ("lastModifieDate", LastModified), ("size", NatToString(size)), ("mediatype", MediaType(ext))]
  }

  /** The form names the file and carries its size in a form the server
      can read back. */
  lemma UploadFormFields(filename: string, ext: string, size: nat)
    ensures UploadForm(filename, ext, size)[1] == ("name", filename)
    ensures UploadForm(filename, ext, size)[4].0 == "size" && ParseNat(UploadForm(filename, ext, size)[4].1) == size
  {
    ParseNatToString(size);
  }

  /** `fmt.Sprintf("%d0%s", now, strconv.Itoa(rnd)[3:6])`. The slice needs
      at least six digits. */
  function ClientMsgId(now: int, rnd: nat): string
    requires |NatToString(rnd)| >= 6
  {
    IntToString(now) + "0" + NatToString(rnd)[3..6]
  }

  /** The id is the time, a zero, and the fourth to sixth digits of the
      random number: four characters longer than the time. */
  lemma ClientMsgIdShape(now: int, rnd: nat)
    requires |NatToString(rnd)| >= 6
    ensures var id := ClientMsgId(now, rnd); var t := IntToString(now);
      |id| == |t| + 4 && id[..|t|] == t && id[|t|] == '0'
      && id[|t| + 1..] == NatToString(rnd)[3..6] && AllDigits(id[|t| + 1..])
  {
    var id := ClientMsgId(now, rnd);
    var t := IntToString(now);
    assert id == t + ['0'] + NatToString(rnd)[3..6];
    assert id[|t| + 1..] == NatToString(rnd)[3..6];
  }

  /** Every random number from 100000 on has the six digits the slice needs. */
  lemma ClientMsgIdDefined(rnd: nat)
    requires rnd >= 100000
    ensures |NatToString(rnd)| >= 6
  {
    assert Pow10(5) == 100000;
    NatToStringLong(rnd, 5);
  }
}
