/** The receipt picker of src/components/ReceiptUploadButton.tsx: a chosen
    file is checked for type and size before it becomes the selection, and
    the selection is uploaded for the signed-in user or removed. */
module ReceiptUploadButton {
  import opened Common
  import opened Receipts

  /** JPEG, PNG and GIF images and PDF documents. */
  const VALID_TYPES: seq<string> := ["image/jpeg", "image/png", "image/gif", "application/pdf"]

  /** 10 MiB. */
  const MAX_SIZE: nat := 10 * 1024 * 1024

  /** Why a chosen file is refused; each is reported by an error toast. */
  datatype Rejection = BadType | TooLarge

  /** The checks of `handleFileSelect`, the type first. */
  function Check(file: FileInfo): (r: Option<Rejection>)
    ensures r.None? <==> file.mimeType in VALID_TYPES && file.size <= MAX_SIZE
    ensures r == Some(BadType) <==> file.mimeType !in VALID_TYPES
    ensures r == Some(TooLarge) <==> file.mimeType in VALID_TYPES && file.size > MAX_SIZE
  {
    if file.mimeType !in VALID_TYPES then Some(BadType)
    else if file.size > MAX_SIZE then Some(TooLarge)
    else None
  }

  /** The limit is inclusive: a file of exactly 10 MiB is accepted and one
      byte more is refused. */
  lemma SizeLimitInclusive(name: string, mimeType: string)
    requires mimeType in VALID_TYPES
    ensures Check(FileInfo(name, mimeType, 10485760)).None?
    ensures Check(FileInfo(name, mimeType, 10485761)) == Some(TooLarge)
  {
  }

  class UploadButton {
    var selected: Option<FileInfo>

    constructor ()
      ensures selected.None?
    {
      selected := None;
    }

    /** `handleFileSelect`; `file` is the first chosen file, if any. */
    method HandleFileSelect(file: Option<FileInfo>) returns (rejected: Option<Rejection>)
      modifies this
      ensures file.None? ==> rejected.None? && selected == old(selected)
      ensures file.Some? ==> rejected == Check(file.value)
      ensures file.Some? && rejected.None? ==> selected == file
      ensures rejected.Some? ==> selected == old(selected)
    {
      if file.None? {
        return None;
      }
      rejected := Check(file.value);
      if rejected.None? {
        selected := file;
      }
    }

    /** `handleUpload`. `user` is the signed-in user's id; the result is what
        `onUploadSuccess` receives, the stored path and the file name. The
        path is never empty, so `if (path)` only tests for null. */
    method HandleUpload(user: Option<string>, store: ReceiptStore, now: nat, uploadOk: bool)
      returns (success: Option<(string, string)>)
      modifies this, store
      ensures old(selected).None? || user.None? ==>
        success.None? && unchanged(this, store)
      ensures old(selected).Some? && user.Some? && uploadOk ==>
        var path := StoragePath(user.value, now, Extension(old(selected).value.name));
        success == Some((path, old(selected).value.name)) && selected.None?
        && store.bucket == old(store.bucket)[path := old(selected).value] && !store.loading
      ensures old(selected).Some? && user.Some? && !uploadOk ==>
        success.None? && selected == old(selected) && store.bucket == old(store.bucket)
        && !store.loading
    {
      if selected.None? || user.None? {
        return None;
      }
      var file := selected.value;
      var path := store.UploadReceipt(file, user.value, now, uploadOk);
      if path.Some? {
        success := Some((path.value, file.name));
        selected := None;
      } else {
        success := None;
      }
    }

    /** The remove button. */
    method Remove()
      modifies this
      ensures selected.None?
    {
      selected := None;
    }
  }
}
