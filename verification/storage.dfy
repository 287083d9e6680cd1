/**
 * The file storage helpers: the object name and path an upload uses, the
 * upload itself (which never overwrites), the banner variant, and deletion.
 * The storage service is a set of (bucket, path) keys; the clock value, the
 * random token and the public URL the client library derives are inputs.
 */
module Storage {
  import opened Wrappers
  import Text

  /** A file chosen by the user. */
  datatype File = File(name: string, mimeType: string, size: nat)

  /** What `uploadImage` returns. */
  datatype UploadResult = UploadResult(url: string, path: string)

  /** One stored object. */
  datatype ObjectKey = ObjectKey(bucket: string, path: string)

  const DefaultBucket := "professionals"
  const PhotoFolder := "photos"
  const BannerFolder := "banners"

  /** The storage service's error for an upload to a path that already holds an object. */
  const AlreadyExists := "The resource already exists"

  /** `name.split('.').pop()`: the text after the last `.`, or the whole name when it has none. */
  function FileExt(name: string): (r: string)
    ensures '.' !in r
    ensures '.' !in name ==> r == name
  {
    Text.LastPieceAvoids(name, '.');
    Text.LastPieceWhole(name, '.');
    Text.LastPiece(name, ".")
  }

  /** `${timestamp}-${token}.${ext}`. */
  function FileName(timestamp: nat, token: string, name: string): string
  {
    Text.Decimal(timestamp) + "-" + token + "." + FileExt(name)
  }

  /** `${folder}/${fileName}`. */
  function ObjectPath(folder: string, fileName: string): string
  {
    folder + "/" + fileName
  }

  /**
   * The stored object keeps the extension of the chosen file: the name
   * built for it ends in `.` followed by the file's extension.
   */
  lemma FileNameKeepsExt(folder: string, timestamp: nat, token: string, name: string)
    ensures FileExt(FileName(timestamp, token, name)) == FileExt(name)
    ensures FileExt(ObjectPath(folder, FileName(timestamp, token, name))) == FileExt(name)
  {
    var ext := FileExt(name);
    Text.LastPieceAfter(Text.Decimal(timestamp) + "-" + token, '.', ext);
    assert FileName(timestamp, token, name) == (Text.Decimal(timestamp) + "-" + token) + ['.'] + ext;
    Text.LastPieceAfter(folder + "/" + Text.Decimal(timestamp) + "-" + token, '.', ext);
    assert ObjectPath(folder, FileName(timestamp, token, name))
        == (folder + "/" + Text.Decimal(timestamp) + "-" + token) + ['.'] + ext;
  }

  /** The path starts with the folder and a `/`. */
  lemma PathInFolder(folder: string, fileName: string)
    ensures Text.StartsWith(ObjectPath(folder, fileName), folder + "/")
  {
    assert ObjectPath(folder, fileName)[..|folder + "/"|] == folder + "/";
  }

  /** The storage service. */
  class Store {
    var objects: set<ObjectKey>

    constructor (initial: set<ObjectKey>)
      ensures objects == initial
    {
      objects := initial;
    }

    /** `.upload(path, file, { upsert: false })`: refused when the path is taken. */
    method Upload(bucket: string, path: string, reply: Reply) returns (outcome: Reply)
      modifies this
      ensures ObjectKey(bucket, path) in old(objects) ==> outcome == (if reply.Fail? then reply else Fail(AlreadyExists))
      ensures ObjectKey(bucket, path) !in old(objects) ==> outcome == reply
      ensures outcome.Ok? ==> objects == old(objects) + {ObjectKey(bucket, path)} && ObjectKey(bucket, path) !in old(objects)
      ensures outcome.Fail? ==> objects == old(objects)
    {
      if reply.Fail? {
        outcome := reply;
      } else if ObjectKey(bucket, path) in objects {
        outcome := Fail(AlreadyExists);
      } else {
        objects := objects + {ObjectKey(bucket, path)};
        outcome := Ok;
      }
    }

    /** `.remove([path])`. */
    method Remove(bucket: string, path: string, reply: Reply)
      modifies this
      ensures reply.Ok? ==> objects == old(objects) - {ObjectKey(bucket, path)}
      ensures reply.Fail? ==> objects == old(objects)
    {
      if reply.Ok? {
        objects := objects - {ObjectKey(bucket, path)};
      }
    }
  }

  /**
   * `uploadImage`: upload under `folder/<timestamp>-<token>.<ext>`; on
   * success the result is that path and its public URL, on error the error
   * is rethrown with the prefix `"Erro no upload: "`.
   */
  method UploadImage(store: Store, file: File, timestamp: nat, token: string, reply: Reply,
                     publicUrl: (string, string) -> string,
                     bucket: string := DefaultBucket, folder: string := PhotoFolder)
    returns (r: Result<UploadResult>)
    modifies store
    ensures var path := ObjectPath(folder, FileName(timestamp, token, file.name));
      && (r.Success? <==> reply.Ok? && ObjectKey(bucket, path) !in old(store.objects))
      && (r.Success? ==> r.value == UploadResult(publicUrl(bucket, path), path)
                         && store.objects == old(store.objects) + {ObjectKey(bucket, path)})
      && (r.Failure? ==> store.objects == old(store.objects))
      && (r.Failure? && reply.Fail? ==> r.error == "Erro no upload: " + reply.message)
  {
    var path := ObjectPath(folder, FileName(timestamp, token, file.name));
    var outcome := store.Upload(bucket, path, reply);
    if outcome.Fail? {
      r := Failure("Erro no upload: " + outcome.message);
    } else {
      r := Success(UploadResult(publicUrl(bucket, path), path));
    }
  }

  /** `uploadBanner`: `uploadImage` with the folder defaulting to `"banners"`. */
  method UploadBanner(store: Store, file: File, timestamp: nat, token: string, reply: Reply,
                      publicUrl: (string, string) -> string,
                      bucket: string := DefaultBucket, folder: string := BannerFolder)
    returns (r: Result<UploadResult>)
    modifies store
    ensures var path := ObjectPath(folder, FileName(timestamp, token, file.name));
      && (r.Success? <==> reply.Ok? && ObjectKey(bucket, path) !in old(store.objects))
      && (r.Success? ==> r.value == UploadResult(publicUrl(bucket, path), path)
                         && store.objects == old(store.objects) + {ObjectKey(bucket, path)})
      && (r.Failure? ==> store.objects == old(store.objects))
      && (r.Failure? && reply.Fail? ==> r.error == "Erro no upload: " + reply.message)
  {
    r := UploadImage(store, file, timestamp, token, reply, publicUrl, bucket, folder);
  }

  /** `deleteImage`: remove exactly that object; the error is rethrown with a prefix. */
  method DeleteImage(store: Store, path: string, reply: Reply, bucket: string := DefaultBucket)
    returns (error: Option<string>)
    modifies store
    ensures reply.Ok? ==> store.objects == old(store.objects) - {ObjectKey(bucket, path)} && error == None
    ensures reply.Fail? ==> store.objects == old(store.objects) && error == Some("Erro ao deletar imagem: " + reply.message)
  {
    store.Remove(bucket, path, reply);
    if reply.Fail? {
      error := Some("Erro ao deletar imagem: " + reply.message);
    } else {
      error := None;
    }
  }
}
