/** Receipt storage of src/hooks/useReceipts.ts: the storage path a receipt
    is uploaded under, derived from the user id, the upload time and the
    file name's extension, the `loading` flag around the upload, and the
    signed-URL fallback. The storage bucket is a map from path to file; the
    backend's answer is a parameter. */
module Receipts {
  import opened Common
  import opened IsoText

  /** A browser `File`: its name, MIME type and size in bytes. */
  datatype FileInfo = FileInfo(name: string, mimeType: string, size: nat)

  // ---------------------------------------------------------------------
  // Splitting and joining on '.'

  /** `s.split(sep)` for a one-character separator. */
  function Split(s: string, sep: char): (r: seq<string>)
    ensures |r| >= 1
    ensures forall k :: 0 <= k < |r| ==> sep !in r[k]
  {
    if s == [] then [""]
    else
      var parts := Split(s[..|s| - 1], sep);
      var last := s[|s| - 1];
      if last == sep then parts + [""]
      else
        var r := parts[..|parts| - 1] + [parts[|parts| - 1] + [last]];
        assert forall k :: 0 <= k < |r| - 1 ==> r[k] == parts[k];
        r
  }

  /** `parts.join(sep)` */
  function Join(parts: seq<string>, sep: char): string
    requires |parts| >= 1
  {
    if |parts| == 1 then parts[0] else Join(parts[..|parts| - 1], sep) + [sep] + parts[|parts| - 1]
  }

  /** Joining the parts of a split gives back the string. */
  lemma {:induction false} JoinSplit(s: string, sep: char)
    ensures Join(Split(s, sep), sep) == s
  {
    if s != [] {
      var init := s[..|s| - 1];
      var last := s[|s| - 1];
      var parts := Split(init, sep);
      var n := |parts|;
      JoinSplit(init, sep);
      assert s == init + [last];
      var r := Split(s, sep);
      if last == sep {
        assert r == parts + [""];
        assert r[..|r| - 1] == parts;
        assert Join(r, sep) == Join(parts, sep) + [sep] + "";
      } else {
        assert r == parts[..n - 1] + [parts[n - 1] + [last]];
        if n == 1 {
          assert Join(r, sep) == parts[0] + [last];
        } else {
          assert r[..|r| - 1] == parts[..n - 1];
          assert Join(r, sep) == Join(parts[..n - 1], sep) + [sep] + (parts[n - 1] + [last]);
          assert Join(parts, sep) == Join(parts[..n - 1], sep) + [sep] + parts[n - 1];
        }
      }
    }
  }

  /** The string has a separator exactly when the split has several parts. */
  lemma {:induction false} SplitCount(s: string, sep: char)
    ensures |Split(s, sep)| > 1 <==> sep in s
  {
    if s != [] {
      var init := s[..|s| - 1];
      SplitCount(init, sep);
      assert s == init + [s[|s| - 1]];
    }
  }

  // ---------------------------------------------------------------------
  // Extension and path

  /** `nameParts.length > 1 ? nameParts.pop() : 'bin'` after
      `nameParts = name.split('.')`. */
  method ExtensionOf(name: string) returns (ext: string)
    ensures ext == Extension(name)
  {
    var nameParts := Split(name, '.');
    if |nameParts| > 1 {
      ext := nameParts[|nameParts| - 1];
      nameParts := nameParts[..|nameParts| - 1];
    } else {
      ext := "bin";
    }
  }

  /** The extension of a file name: its last '.'-separated part, or "bin". */
  function Extension(name: string): string {
    var parts := Split(name, '.');
    if |parts| > 1 then parts[|parts| - 1] else "bin"
  }

  /** A name without '.' gets "bin". */
  lemma NoDotGivesBin(name: string)
    requires '.' !in name
    ensures Extension(name) == "bin"
  {
    SplitCount(name, '.');
  }

  /** A name with a '.' gets the text after its last '.'. */
  lemma {:induction false} ExtensionAfterLastDot(name: string)
    requires '.' in name
    ensures exists i :: 0 <= i < |name| && name[i] == '.' && Extension(name) == name[i + 1..] && '.' !in name[i + 1..]
  {
    SplitCount(name, '.');
    var parts := Split(name, '.');
    var ext := parts[|parts| - 1];
    JoinSplit(name, '.');
    var front := Join(parts[..|parts| - 1], '.');
    assert parts[..|parts| - 1][..|parts| - 2] == parts[..|parts| - 2];
    assert name == front + ['.'] + ext;
    var i := |front|;
    assert name[i] == '.';
    assert name[i + 1..] == ext;
  }

  /** The extension never contains '.'. */
  lemma ExtensionHasNoDot(name: string)
    ensures '.' !in Extension(name)
  {
  }

  /** `${userId}/${Date.now()}.${ext}`; `now` is the time in milliseconds. */
  function StoragePath(userId: string, now: nat, ext: string): (p: string)
    ensures userId + "/" <= p
  {
    userId + "/" + NatString(now) + "." + ext
  }

  /** The extension of the stored path is the file's own extension: the
      path's last '.' is the one before the extension. */
  lemma PathKeepsExtension(userId: string, now: nat, name: string)
    ensures Extension(StoragePath(userId, now, Extension(name))) == Extension(name)
  {
    var ext := Extension(name);
    var front := userId + "/" + NatString(now);
    assert StoragePath(userId, now, ext) == front + ['.'] + ext;
    SplitLastPart(front, '.', ext);
  }

  /** Text after the last separator becomes the last part of the split. */
  lemma {:induction false} SplitLastPart(a: string, sep: char, b: string)
    requires sep !in b
    ensures Split(a + [sep] + b, sep) == Split(a, sep) + [b]
    decreases |b|
  {
    var s := a + [sep] + b;
    if b == [] {
      assert s[..|s| - 1] == a;
    } else {
      var b' := b[..|b| - 1];
      assert s[..|s| - 1] == a + [sep] + b';
      SplitLastPart(a, sep, b');
      assert b == b' + [b[|b| - 1]];
    }
  }

  // ---------------------------------------------------------------------
  // useReceipts

  /** The state of the hook and of the `comprovantes` bucket. */
  class ReceiptStore {
    var loading: bool
    var bucket: map<string, FileInfo>

    constructor ()
      ensures !loading && bucket == map[]
    {
      loading := false;
      bucket := map[];
    }

    /** `uploadReceipt(file, userId)`; `now` is `Date.now()` and `uploadOk`
        whether the bucket accepts the upload. The stored path is returned on
        success and None on error; `loading` is false again afterwards. */
    method UploadReceipt(file: FileInfo, userId: string, now: nat, uploadOk: bool) returns (path: Option<string>)
      modifies this
      ensures !loading
      ensures uploadOk ==> path == Some(StoragePath(userId, now, Extension(file.name)))
                           && bucket == old(bucket)[path.value := file]
      ensures !uploadOk ==> path.None? && bucket == old(bucket)
    {
      loading := true;
      var ext := ExtensionOf(file.name);
      var p := StoragePath(userId, now, ext);
      if uploadOk {
        bucket := bucket[p := file];
        path := Some(p);
      } else {
        path := None;
      }
      loading := false;
    }
  }

  /** `data?.signedUrl || ''`: the signed URL when one is produced, else "". */
  function ReceiptUrl(signedUrl: Option<string>): (r: string)
    ensures signedUrl.None? ==> r == ""
    ensures signedUrl.Some? ==> r == signedUrl.value
  {
    if signedUrl.Some? then signedUrl.value else ""
  }
}
