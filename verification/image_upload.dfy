/**
 * The image upload field: a chosen file is checked (type, then size) before
 * anything else happens; an accepted file shows a local preview and is
 * uploaded, and the field reports the uploaded URL to its owner through
 * `onChange`.  The upload function, the file reader and `alert` belong to
 * the page; here their outcomes are inputs and the messages and
 * `onChange` values are recorded in order.
 */
module ImageUploadField {
  import opened Wrappers
  import Text
  import Storage

  const DefaultMaxSize: nat := 5
  const DefaultAccept := "image/*"
  const NotAnImage := "Por favor, selecione apenas arquivos de imagem."
  const UploadFailed := "Erro ao fazer upload da imagem. Tente novamente."

  /** The size alert, with the limit in megabytes. */
  function TooLarge(maxSize: nat): string
  {
    "O arquivo deve ter no máximo " + Text.Decimal(maxSize) + "MB."
  }

  /** The number of bytes in `maxSize` megabytes. */
  function MaxBytes(maxSize: nat): nat
  {
    maxSize * 1024 * 1024
  }

  /** Whether the checks let a file through: an `image/` type and at most `maxSize` megabytes. */
  predicate Accepts(file: Storage.File, maxSize: nat)
  {
    Text.StartsWith(file.mimeType, "image/") && file.size <= MaxBytes(maxSize)
  }

  /** A file of exactly the limit is accepted, one byte more is not. */
  lemma SizeBoundary(file: Storage.File, maxSize: nat)
    requires Text.StartsWith(file.mimeType, "image/")
    ensures file.size == MaxBytes(maxSize) ==> Accepts(file, maxSize)
    ensures file.size == MaxBytes(maxSize) + 1 ==> !Accepts(file, maxSize)
    ensures MaxBytes(DefaultMaxSize) == 5242880
  {
  }

  class ImageUpload {
    /** The `maxSize` and `accept` properties. */
    const maxSize: nat
    const accept: string
    var isUploading: bool
    var preview: Option<string>
    /** The values passed to `onChange`, oldest first. */
    var changes: seq<string>
    /** The alerts shown, oldest first. */
    var alerts: seq<string>

    /** The preview starts as the current value, when it is not empty. */
    constructor (value: Option<string>, maxSize: nat := DefaultMaxSize, accept: string := DefaultAccept)
      ensures this.maxSize == maxSize && this.accept == accept
      ensures preview == (if value.Some? && value.value != "" then value else None)
      ensures !isUploading && changes == [] && alerts == []
    {
      this.maxSize := maxSize;
      this.accept := accept;
      preview := if value.Some? && value.value != "" then value else None;
      isUploading := false;
      changes := [];
      alerts := [];
    }

    /**
     * `handleFileSelect` up to the upload call: a file that is not an image,
     * or is larger than the limit, is refused with an alert and nothing else
     * changes (the type is checked first); an accepted file starts the upload.
     * The `accept` property plays no part.
     */
    method SelectFile(file: Storage.File) returns (accepted: bool)
      modifies this
      ensures accepted <==> Accepts(file, maxSize)
      ensures !Text.StartsWith(file.mimeType, "image/") ==> alerts == old(alerts) + [NotAnImage]
      ensures Text.StartsWith(file.mimeType, "image/") && file.size > MaxBytes(maxSize) ==> alerts == old(alerts) + [TooLarge(maxSize)]
      ensures !accepted ==> isUploading == old(isUploading)
      ensures accepted ==> isUploading && alerts == old(alerts)
      ensures preview == old(preview) && changes == old(changes)
    {
      if !Text.StartsWith(file.mimeType, "image/") {
        alerts := alerts + [NotAnImage];
        return false;
      }
      if file.size > MaxBytes(maxSize) {
        alerts := alerts + [TooLarge(maxSize)];
        return false;
      }
      isUploading := true;
      return true;
    }

    /** The file reader finished: the preview shows the file's data URL. */
    method ReaderLoaded(dataUrl: string)
      modifies this
      ensures preview == Some(dataUrl)
      ensures isUploading == old(isUploading) && changes == old(changes) && alerts == old(alerts)
    {
      preview := Some(dataUrl);
    }

    /**
     * The upload settled: on success `onChange` receives the URL once; on
     * failure an alert is shown, the preview is cleared and `onChange` is not
     * called.  Either way the field stops uploading.
     */
    method UploadSettled(outcome: Result<string>)
      modifies this
      ensures outcome.Success? ==> changes == old(changes) + [outcome.value] && preview == old(preview) && alerts == old(alerts)
      ensures outcome.Failure? ==> changes == old(changes) && preview == None && alerts == old(alerts) + [UploadFailed]
      ensures !isUploading
    {
      if outcome.Success? {
        changes := changes + [outcome.value];
      } else {
        alerts := alerts + [UploadFailed];
        preview := None;
      }
      isUploading := false;
    }

    /** `handleFileSelect` as a whole, for an upload whose outcome is `outcome`. */
    method HandleFileSelect(file: Storage.File, outcome: Result<string>)
      modifies this
      ensures !Accepts(file, maxSize) ==> changes == old(changes) && preview == old(preview) && isUploading == old(isUploading)
      ensures !Text.StartsWith(file.mimeType, "image/") ==> alerts == old(alerts) + [NotAnImage]
      ensures Text.StartsWith(file.mimeType, "image/") && file.size > MaxBytes(maxSize) ==> alerts == old(alerts) + [TooLarge(maxSize)]
      ensures Accepts(file, maxSize) && outcome.Success? ==>
        changes == old(changes) + [outcome.value] && preview == old(preview) && alerts == old(alerts) && !isUploading
      ensures Accepts(file, maxSize) && outcome.Failure? ==>
        changes == old(changes) && preview == None && alerts == old(alerts) + [UploadFailed] && !isUploading
    {
      var accepted := SelectFile(file);
      if accepted {
        UploadSettled(outcome);
      }
    }

    /** `handleRemove`: the preview is cleared and `onChange` receives `""`. */
    method HandleRemove()
      modifies this
      ensures preview == None && changes == old(changes) + [""]
      ensures isUploading == old(isUploading) && alerts == old(alerts)
    {
      preview := None;
      changes := changes + [""];
    }
  }
}
