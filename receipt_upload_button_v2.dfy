/** The second receipt picker, src/components/ReceiptUploadButton_Version2.tsx:
    stricter checks (no GIF, 5 MiB) and an upload under the transaction id
    instead of the user id. */
module ReceiptUploadButtonV2 {
  import opened Common
  import opened Receipts
  import V1 = ReceiptUploadButton

  /** JPEG and PNG images and PDF documents. */
  const VALID_TYPES: seq<string> := ["image/jpeg", "image/png", "application/pdf"]

  /** 5 MiB. */
  const MAX_SIZE: nat := 5 * 1024 * 1024

  /** Why a chosen file is refused; each is reported by an alert. */
  datatype Rejection = BadType | TooLarge

  /** The checks of `handleFileSelect`, the type first. */
  function Check(file: FileInfo): (r: Option<Rejection>)
    ensures r.None? <==> file.mimeType in VALID_TYPES && file.size <= MAX_SIZE
    ensures r == Some(BadType) <==> file.mimeType !in VALID_TYPES
    ensures r == Some(TooLarge) <==> file.mimeType in VALID_TYPES && file.size > MAX_SIZE
  {
    if file.mimeType !in VALID_TYPES then Some(BadType)
    else if file.size > MAX_SIZE then Some(TooLarge)
    else None
  }

  /** Every file this picker accepts, the first one accepts too. */
  lemma AcceptedByBoth(file: FileInfo)
    requires Check(file).None?
    ensures V1.Check(file).None?
  {
    assert file.mimeType in V1.VALID_TYPES;
  }

  /** A GIF is refused here however small, while the first picker takes it. */
  lemma GifOnlyInFirst(name: string, size: nat)
    requires size <= MAX_SIZE
    ensures Check(FileInfo(name, "image/gif", size)) == Some(BadType)
    ensures V1.Check(FileInfo(name, "image/gif", size)).None?
  {
    assert "image/gif" == V1.VALID_TYPES[2];
  }

  class UploadButton {
    var selectedFile: Option<FileInfo>

    constructor ()
      ensures selectedFile.None?
    {
      selectedFile := None;
    }

    /** `handleFileSelect`; `file` is the first chosen file, if any. */
    method HandleFileSelect(file: Option<FileInfo>) returns (rejected: Option<Rejection>)
      modifies this
      ensures file.None? ==> rejected.None? && selectedFile == old(selectedFile)
      ensures file.Some? ==> rejected == Check(file.value)
      ensures file.Some? && rejected.None? ==> selectedFile == file
      ensures rejected.Some? ==> selectedFile == old(selectedFile)
    {
      if file.Some? {
        rejected := Check(file.value);
        if rejected.None? {
          selectedFile := file;
        }
      } else {
        rejected := None;
      }
    }

    /** `handleUpload`: the file goes under `transactionId` as the folder;
        the result is what `onUploadSuccess` receives. */
    method HandleUpload(transactionId: string, store: ReceiptStore, now: nat, uploadOk: bool)
      returns (success: Option<(string, string)>)
      modifies this, store
      ensures old(selectedFile).None? ==>
        success.None? && unchanged(this, store)
      ensures old(selectedFile).Some? && uploadOk ==>
        var path := StoragePath(transactionId, now, Extension(old(selectedFile).value.name));
        success == Some((path, old(selectedFile).value.name)) && selectedFile.None?
        && store.bucket == old(store.bucket)[path := old(selectedFile).value] && !store.loading
      ensures old(selectedFile).Some? && !uploadOk ==>
        success.None? && selectedFile == old(selectedFile) && store.bucket == old(store.bucket)
        && !store.loading
    {
      if selectedFile.None? {
        return None;
      }
      var file := selectedFile.value;
      var path := store.UploadReceipt(file, transactionId, now, uploadOk);
      if path.Some? {
        success := Some((path.value, file.name));
        selectedFile := None;
      } else {
        success := None;
      }
    }

    /** The remove button. */
    method Remove()
      modifies this
      ensures selectedFile.None?
    {
      selectedFile := None;
    }
  }
}
