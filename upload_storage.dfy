/** Upload paths: an uploaded file is stored under a prefix, with a compact
    UUID as its name and the extension of the original file name. */
module UploadStorage {
  import opened Text
  import opened CompactUuid

  /** `str.rfind` for one character: the last index holding it, or -1. */
  function RFind(s: string, c: char): (r: int)
    ensures -1 <= r < |s|
    ensures r >= 0 ==> s[r] == c
    ensures forall k :: r < k < |s| ==> s[k] != c
  {
    if s == [] then -1
    else if s[|s| - 1] == c then |s| - 1
    else RFind(s[..|s| - 1], c)
  }

  /** A dot at j in the last path component, with a character other than a
      dot before it at i in that component: j then starts an extension. */
  predicate DotAfterStem(p: string, i: int, j: int) {
    0 <= i < j < |p| && p[i] != '.' && p[j] == '.' && forall k :: i <= k < |p| ==> p[k] != '/'
  }

  /** `posixpath.splitext`: the root and the extension. The extension runs
      from the last dot of the last component, unless only dots come before
      that dot in the component; otherwise it is empty. */
  function Splitext(p: string): (parts: (string, string))
    ensures parts.0 + parts.1 == p
    ensures parts.1 != "" ==> (parts.1[0] == '.'
      && (forall k :: 1 <= k < |parts.1| ==> parts.1[k] != '.')
      && (forall k :: 0 <= k < |parts.1| ==> parts.1[k] != '/'))
    ensures parts.1 == "" <==> forall i, j :: !DotAfterStem(p, i, j)
  {
    var sepIndex := RFind(p, '/');
    var dotIndex := RFind(p, '.');
    if dotIndex > sepIndex && exists k | sepIndex + 1 <= k < dotIndex :: p[k] != '.' then
      assert p == p[..dotIndex] + p[dotIndex..];
      assert exists i, j :: DotAfterStem(p, i, j) by {
        var k :| sepIndex + 1 <= k < dotIndex && p[k] != '.';
        assert DotAfterStem(p, k, dotIndex);
      }
      (p[..dotIndex], p[dotIndex..])
    else
      assert p + "" == p;
      (p, "")
  }

  /** `posixpath.join` of two components. */
  function Join(a: string, b: string): (path: string)
    ensures |b| > 0 && b[0] == '/' ==> path == b
    ensures !(|b| > 0 && b[0] == '/') && (a == "" || a[|a| - 1] == '/') ==> path == a + b
    ensures !(|b| > 0 && b[0] == '/') && !(a == "" || a[|a| - 1] == '/') ==> path == a + "/" + b
  {
    if |b| > 0 && b[0] == '/' then b
    else if a == "" || a[|a| - 1] == '/' then a + b
    else a + "/" + b
  }

  /** `upload_to_factory(prefix)(instance, filename)`, for the random bytes
      `uuidBytes` of the id: the id and the file's extension, under the
      prefix. The file's stem is dropped. */
  function UploadToFactory(prefix: string, uuidBytes: seq<Byte>, filename: string): (path: string)
    requires |uuidBytes| == 16
    ensures prefix != "" && prefix[|prefix| - 1] != '/' ==>
      path == prefix + "/" + Uuid(uuidBytes) + Splitext(filename).1
    ensures (prefix == "" || prefix[|prefix| - 1] == '/') ==>
      path == prefix + Uuid(uuidBytes) + Splitext(filename).1
  {
    var id := Uuid(uuidBytes);
    assert InAlphabet(id[0]);
    Join(prefix, id + Splitext(filename).1)
  }

  /** Two files with the same extension get the same path for the same id,
      whatever their stems. */
  lemma StemDiscarded(prefix: string, uuidBytes: seq<Byte>, stem1: string, stem2: string, ext: string)
    requires |uuidBytes| == 16
    requires Splitext(stem1 + ext).1 == ext && Splitext(stem2 + ext).1 == ext
    ensures UploadToFactory(prefix, uuidBytes, stem1 + ext) == UploadToFactory(prefix, uuidBytes, stem2 + ext)
  {
  }

  /** The stored file name: the id followed by the extension, with no path
      separator of its own. */
  lemma {:induction false} StoredName(prefix: string, uuidBytes: seq<Byte>, filename: string)
    requires |uuidBytes| == 16
    ensures var path := UploadToFactory(prefix, uuidBytes, filename);
      var name := Uuid(uuidBytes) + Splitext(filename).1;
      |name| <= |path| && path[|path| - |name|..] == name
      && (forall k :: 0 <= k < |name| ==> name[k] != '/')
  {
    var path := UploadToFactory(prefix, uuidBytes, filename);
    var id := Uuid(uuidBytes);
    var ext := Splitext(filename).1;
    var name := id + ext;
    assert forall k :: 0 <= k < |id| ==> InAlphabet(id[k]);
    if prefix != "" && prefix[|prefix| - 1] != '/' {
      assert path == (prefix + "/") + name;
    } else {
      assert path == prefix + name;
    }
  }

  /** `upload_to(instance, filename)`: the factory's path under
      `app_label/modelname`, the model's class name lower-cased. */
  function UploadTo(appLabel: string, className: string, uuidBytes: seq<Byte>, filename: string): (path: string)
    requires |uuidBytes| == 16
    ensures path == UploadToFactory(Join(appLabel, Lower(className)), uuidBytes, filename)
  {
    UploadToFactory(Join(appLabel, Lower(className)), uuidBytes, filename)
  }

  /** The extension of `test.txt`. */
  lemma TxtExtension()
    ensures Splitext("test.txt") == ("test", ".txt")
  {
    var p := "test.txt";
    assert forall k :: 0 <= k < |p| ==> p[k] != '/';
    assert p[4] == '.' && p[5] != '.' && p[6] != '.' && p[7] != '.';
    assert RFind(p, '.') == 4;
    assert p[0] != '.';
    assert p[..4] == "test" && p[4..] == ".txt";
  }

  /** A file `test.txt` under the prefix `test` is stored as
      `test/<id>.txt`. */
  lemma FactoryExample(uuidBytes: seq<Byte>)
    requires |uuidBytes| == 16
    ensures UploadToFactory("test", uuidBytes, "test.txt") == "test/" + Uuid(uuidBytes) + ".txt"
  {
    TxtExtension();
  }

  lemma LowerTestModel()
    ensures Lower("TestModel") == "testmodel"
  {
    var s := "TestModel";
    assert LowerChar(s[0]) == 't' && LowerChar(s[4]) == 'm';
  }

  /** A file `test.txt` of model `TestModel` in app `test` is stored as
      `test/testmodel/<id>.txt`. */
  lemma UploadToExample(uuidBytes: seq<Byte>)
    requires |uuidBytes| == 16
    ensures UploadTo("test", "TestModel", uuidBytes, "test.txt") == "test/testmodel/" + Uuid(uuidBytes) + ".txt"
  {
    var id := Uuid(uuidBytes);
    LowerTestModel();
    TestModelPrefix();
    TxtExtension();
    var path := UploadToFactory("test/testmodel", uuidBytes, "test.txt");
    assert path == "test/testmodel" + "/" + id + ".txt";
  }

  lemma TestModelPrefix()
    ensures Join("test", "testmodel") == "test/testmodel"
    ensures "test/testmodel" + "/" == "test/testmodel/"
  {
  }
}
