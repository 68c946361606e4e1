/** The Flysystem adapter: the state lives in memory and every mutating call
    writes it through to the file `name/id.json`. */
module FilesystemSessions {
  import opened SessionValues
  import opened SessionIds

  /** The file holding session `id` under namespace `name`. */
  function SessionPath(name: string, id: string): (p: string)
    ensures |p| == |name| + |id| + 6
    ensures p[..|name| + 1] == name + "/" && p[|name| + 1..|name| + 1 + |id|] == id
    ensures p[|name| + 1 + |id|..] == ".json"
  {
    name + "/" + id + ".json"
  }

  /** Within one namespace, distinct ids name distinct files. */
  lemma SessionPathInjective(name: string, id1: string, id2: string)
    requires SessionPath(name, id1) == SessionPath(name, id2)
    ensures id1 == id2
  {
    var p := SessionPath(name, id1);
    var n := |name| + 1;
    assert |id1| == |id2|;
    assert p[n..n + |id1|] == id1;
    assert SessionPath(name, id2)[n..n + |id2|] == id2;
  }

  /** The file system, as the decoded content of each file by path (the JSON
      codec is taken to round-trip exactly). */
  class FileStore {
    var files: map<string, State>

    constructor (files: map<string, State>)
      ensures this.files == files
    {
      this.files := files;
    }
  }

  class FilesystemSession {
    const name: string
    const filesystem: FileStore
    var storage: State
    var id: string
    var started: bool

    function Path(): string
      reads this
    {
      SessionPath(name, id)
    }

    /** Write-through: the session's file, when there is one, holds exactly
        the in-memory state. */
    predicate Synced()
      reads this, filesystem
    {
      Path() in filesystem.files ==> filesystem.files[Path()] == storage
    }

    /** A new session: a fresh id is issued (the id is always empty at this
        point) and the state is read from the file for that id if one exists. */
    constructor (filesystem: FileStore, name: string, entropy: string)
      ensures this.filesystem == filesystem && this.name == name
      ensures id == NewId(entropy) && !started
      ensures storage == if Path() in filesystem.files then filesystem.files[Path()] else map[]
      ensures Synced()
    {
      this.name := name;
      this.filesystem := filesystem;
      storage := map[];
      id := "";
      started := false;
      new;
      if id == "" {
        RegenerateId(entropy);
      }
      var path := SessionPath(name, id);
      if path in filesystem.files {
        storage := filesystem.files[path];
      }
    }

    /** The constructor as evidently intended: the session resumes the file
        of the identifier it is given. */
    constructor Resume(filesystem: FileStore, name: string, sessionId: string)
      ensures this.filesystem == filesystem && this.name == name
      ensures id == sessionId && !started
      ensures storage == if Path() in filesystem.files then filesystem.files[Path()] else map[]
      ensures Synced()
    {
      this.name := name;
      this.filesystem := filesystem;
      id := sessionId;
      started := false;
      var path := SessionPath(name, sessionId);
      storage := if path in filesystem.files then filesystem.files[path] else map[];
    }

    /** `start()` only raises the started flag. */
    method Start()
      modifies this`started
      ensures started
      ensures old(started) ==> unchanged(this)
    {
      if !started {
        started := true;
      }
    }

    function IsStarted(): bool
      reads this
    {
      started
    }

    /** A new id; the file under the old id is neither moved nor removed. */
    method RegenerateId(entropy: string)
      modifies this`id
      ensures id == NewId(entropy)
      ensures |SessionPrefix| <= |id| && id[..|SessionPrefix|] == SessionPrefix && NoDot(id)
    {
      id := StripDots(Uniqid(SessionPrefix, entropy));
    }

    /** Removes the file of the current id, issues a new id and empties the state. */
    method Destroy(entropy: string)
      modifies this`id, this`storage, filesystem
      ensures filesystem.files == old(filesystem.files) - {old(Path())}
      ensures id == NewId(entropy) && storage == map[] && started == old(started)
    {
      filesystem.files := filesystem.files - {Path()};
      RegenerateId(entropy);
      storage := map[];
    }

    function Get(key: string, default: Value): (r: Value)
      reads this
      ensures Has(key) ==> r == All()[key]
      ensures !Has(key) ==> r == default
    {
      if key in storage then storage[key] else default
    }

    function All(): State
      reads this
    {
      storage
    }

    function Has(key: string): (r: bool)
      reads this
      ensures r <==> key in All()
    {
      key in storage
    }

    method Set(key: string, value: Value)
      modifies this`storage, filesystem
      ensures storage == old(storage)[key := value]
      ensures Has(key) && forall d :: Get(key, d) == value
      ensures forall k, d :: k != key ==> Get(k, d) == old(Get(k, d))
      ensures filesystem.files == old(filesystem.files)[Path() := storage]
      ensures forall other :: other != id && SessionPath(name, other) in old(filesystem.files) ==>
        SessionPath(name, other) in filesystem.files &&
        filesystem.files[SessionPath(name, other)] == old(filesystem.files)[SessionPath(name, other)]
    {
      storage := storage[key := value];
      filesystem.files := filesystem.files[Path() := storage];
      forall other | other != id
        ensures SessionPath(name, other) != Path()
      {
        if SessionPath(name, other) == Path() {
          SessionPathInjective(name, other, id);
        }
      }
    }

    method SetValues(values: State)
      modifies this`storage, filesystem
      ensures storage == ArrayMerge(old(storage), values)
      ensures filesystem.files == old(filesystem.files)[Path() := storage]
      ensures Synced()
    {
      storage := ArrayMerge(storage, values);
      filesystem.files := filesystem.files[Path() := storage];
    }

    /** As written: the key leaves the state, then building the file path
        from `$$this` raises, so the file still holds the removed key. */
    method Delete(key: string) returns (outcome: Outcome)
      modifies this`storage
      ensures storage == old(storage) - {key} && !Has(key)
      ensures outcome == Fail(ObjectToString)
      ensures old(Synced()) && key in old(storage) && Path() in filesystem.files ==> !Synced()
    {
      storage := storage - {key};
      outcome := Fail(ObjectToString);
    }

    /** Delete as evidently intended: the removal is written through. */
    method DeleteWriteThrough(key: string)
      modifies this`storage, filesystem
      ensures storage == old(storage) - {key} && !Has(key)
      ensures filesystem.files == old(filesystem.files)[Path() := storage]
      ensures Synced()
    {
      storage := storage - {key};
      filesystem.files := filesystem.files[Path() := storage];
    }

    /** Removes the session file and empties the state; the id is kept. */
    method Clear()
      modifies this`storage, filesystem
      ensures filesystem.files == old(filesystem.files) - {Path()}
      ensures storage == map[] && forall k :: !Has(k)
      ensures Synced()
    {
      filesystem.files := filesystem.files - {Path()};
      storage := map[];
    }

    /** Nothing to do: every change was already written through. */
    method Save()
      ensures unchanged(this) && unchanged(filesystem)
    {
    }
  }

  /** After `set('user', …)` and `delete('user')`, the session no longer has
      the key but its file still does. */
  method DeletedKeyStaysInFile(entropy: string) returns (s: FilesystemSession)
    ensures !s.Has("user")
    ensures s.Path() in s.filesystem.files && "user" in s.filesystem.files[s.Path()]
  {
    var fs := new FileStore(map[]);
    s := new FilesystemSession(fs, "app", entropy);
    s.Set("user", Str("alice"));
    var outcome := s.Delete("user");
  }

  /** As written, a session never finds the file of an earlier one: each
      constructor issues a fresh id, so the file saved under the first id is
      not the one the second session looks up. */
  method FileNotReloaded() returns (first: FilesystemSession, second: FilesystemSession)
    ensures first.filesystem == second.filesystem
    ensures first.Path() in first.filesystem.files
    ensures first.filesystem.files[first.Path()] == map["cart" := Int(3)]
    ensures second.storage == map[]
  {
    var fs := new FileStore(map[]);
    first := new FilesystemSession(fs, "app", "1");
    first.Set("cart", Int(3));
    second := new FilesystemSession(fs, "app", "2");
    assert first.id == "sess_1" && second.id == "sess_2";
    assert SessionPath("app", "sess_2")[9] != SessionPath("app", "sess_1")[9];
  }

  /** With `Resume`, a session resumed under the id of an earlier one holds
      exactly what that session wrote (the durability round trip). */
  method SetThenResume(s: FilesystemSession, key: string, value: Value) returns (resumed: FilesystemSession)
    modifies s`storage, s.filesystem
    ensures resumed.id == s.id && resumed.storage == s.storage
    ensures resumed.Has(key) && resumed.Get(key, Null) == value
  {
    s.Set(key, value);
    resumed := new FilesystemSession.Resume(s.filesystem, s.name, s.id);
  }
}
