/** The hosted object store the upload helpers talk to, reduced to what they rely
    on: a bucket holds a set of object paths, an upload without `upsert` refuses a
    path that is already taken, a removal drops the listed paths, and every object
    has a public URL under `/storage/v1/object/public/<bucket>/<path>`. Each call
    may fail; the failure (a message) is handed in by the caller of the model. */
module StorageSdk {
  import opened Common

  datatype StorageKey = StorageKey(bucket: string, path: string)

  /** What the environment supplies to one upload: the clock (`Date.now()`), the
      random token (`Math.random().toString(36).substring(2, 8)`) and whether the
      storage call fails, with its message. */
  datatype Tick = Tick(now: nat, token: string, fault: Option<string>)

  /** The message the store answers with when an upload without upsert targets a
      path that already holds an object. */
  const AlreadyExists: string := "The resource already exists"

  const PublicSegment: string := "/storage/v1/object/public/"

  /** The path part of `getPublicUrl(path).publicUrl`. */
  function PublicPath(bucket: string, path: string): (p: string)
    ensures IsPrefix(PublicSegment, p)
  {
    PublicSegment + bucket + "/" + path
  }

  class Storage {
    /** The project URL every public URL starts with. */
    const projectUrl: string
    var objects: set<StorageKey>

    constructor(projectUrl: string)
      ensures this.projectUrl == projectUrl && objects == {}
    {
      this.projectUrl := projectUrl;
      objects := {};
    }

    /** `getPublicUrl`: computed locally, never fails, does not look at the store. */
    function PublicUrl(bucket: string, path: string): (url: string)
      ensures IsPrefix(projectUrl, url)
      ensures url[|projectUrl|..] == PublicPath(bucket, path)
    {
      projectUrl + PublicPath(bucket, path)
    }

    /** `upload(path, file, { upsert: false })`. */
    method Upload(bucket: string, path: string, fault: Option<string>) returns (err: Option<string>)
      modifies this
      ensures fault.Some? ==> err == fault && objects == old(objects)
      ensures fault.None? && StorageKey(bucket, path) in old(objects) ==>
                err == Some(AlreadyExists) && objects == old(objects)
      ensures fault.None? && StorageKey(bucket, path) !in old(objects) ==>
                err == None && objects == old(objects) + {StorageKey(bucket, path)}
    {
      var key := StorageKey(bucket, path);
      if fault.Some? {
        err := fault;
      } else if key in objects {
        err := Some(AlreadyExists);
      } else {
        objects := objects + {key};
        err := None;
      }
    }

    /** `remove(paths)`: paths that hold no object are skipped without an error. */
    method Remove(bucket: string, paths: seq<string>, fault: Option<string>) returns (err: Option<string>)
      modifies this
      ensures err == fault
      ensures fault.Some? ==> objects == old(objects)
      ensures fault.None? ==> objects == old(objects) - set p | p in paths :: StorageKey(bucket, p)
    {
      err := fault;
      if fault.None? {
        objects := objects - set p | p in paths :: StorageKey(bucket, p);
      }
    }
  }
}
