/** The browser database "stringDB" as the worker sees it: opening it at
    schema version 1 (creating the "strings" object store on first use), and
    the "strings" store itself, whose keys come from an auto-increment key
    generator. Requests, transactions and callbacks are flattened into
    method calls. */
module RecordStore {

  const DatabaseName: string := "stringDB"
  const DatabaseVersion: nat := 1
  const StoreName: string := "strings"

  /** Why `indexedDB.open("stringDB", 1)` fires its error handler. */
  datatype OpenError =
    | StorageUnavailable  // the host refuses or lacks persistent storage
    | VersionError        // the database already exists at a newer version

  datatype OpenResult = Opened | OpenFailed(error: OpenError)

  class StringDB {
    /** The database's schema version; 0 while it does not exist yet. */
    var version: nat
    /** The names of its object stores (`db.objectStoreNames`). */
    var storeNames: set<string>
    /** The records of the "strings" store, by key. */
    var strings: map<nat, string>
    /** The current number of the store's key generator: the next key. */
    var nextKey: nat

    /** The key generator is past every key in use; a store that does not
        exist holds nothing and its generator has not started. */
    ghost predicate Consistent()
      reads this
    {
      && nextKey >= 1
      && (forall k :: k in strings ==> 1 <= k < nextKey)
      && (StoreName !in storeNames ==> strings == map[] && nextKey == 1)
    }

    /** Consistent, and an existing database at any version has been through
        the upgrade step, so its "strings" store exists. */
    ghost predicate Valid()
      reads this
    {
      && Consistent()
      && (version == 0 ==> storeNames == {})
      && (version >= 1 ==> StoreName in storeNames)
    }

    /** A profile in which "stringDB" has never been opened. */
    constructor ()
      ensures Valid()
      ensures version == 0 && storeNames == {} && strings == map[] && nextKey == 1
    {
      version := 0;
      storeNames := {};
      strings := map[];
      nextKey := 1;
    }

    /** The `onupgradeneeded` handler: create the "strings" store, with an
        auto-increment key, only if it is not already there. Applying it to a
        database that has the store changes nothing, so it is idempotent. */
    method OnUpgradeNeeded()
      requires Consistent()
      modifies this
      ensures Consistent()
      ensures StoreName in storeNames
      ensures old(StoreName in storeNames) ==> storeNames == old(storeNames)
      ensures old(StoreName !in storeNames) ==> storeNames == old(storeNames) + {StoreName}
      ensures version == old(version) && strings == old(strings) && nextKey == old(nextKey)
    {
      if StoreName !in storeNames {
        storeNames := storeNames + {StoreName};
        strings := map[];
        nextKey := 1;
      }
    }

    /** `indexedDB.open("stringDB", 1)`. `available` is whether the host
        grants persistent storage. A database that is missing (version 0) is
        created and upgraded; one at a newer version is refused. Opening never
        touches the records. */
    method Open(available: bool) returns (r: OpenResult)
      requires Valid()
      modifies this
      ensures Valid()
      ensures r == Opened <==> available && old(version) <= DatabaseVersion
      ensures r == OpenFailed(StorageUnavailable) <==> !available
      ensures r == OpenFailed(VersionError) <==> available && old(version) > DatabaseVersion
      ensures r.OpenFailed? ==> version == old(version) && storeNames == old(storeNames)
      ensures r == Opened ==> version == DatabaseVersion && storeNames == old(storeNames) + {StoreName}
      ensures strings == old(strings) && nextKey == old(nextKey)
    {
      if !available {
        return OpenFailed(StorageUnavailable);
      }
      if version > DatabaseVersion {
        return OpenFailed(VersionError);
      }
      if version < DatabaseVersion {
        version := DatabaseVersion;
        OnUpgradeNeeded();
      }
      r := Opened;
    }

    /** `objectStore("strings").count()`. */
    method Count() returns (n: nat)
      requires Valid() && StoreName in storeNames
      ensures n == |strings|
    {
      n := |strings|;
    }

    /** `objectStore("strings").add(value)`: the key generator assigns a key
        that is fresh and larger than every key in use, then advances. */
    method Add(value: string) returns (key: nat)
      requires Valid() && StoreName in storeNames
      modifies this
      ensures Valid()
      ensures key == old(nextKey) && nextKey == key + 1
      ensures key !in old(strings) && forall k :: k in old(strings) ==> k < key
      ensures strings == old(strings)[key := value]
      ensures |strings| == |old(strings)| + 1
      ensures version == old(version) && storeNames == old(storeNames)
    {
      key := nextKey;
      strings := strings[key := value];
      nextKey := nextKey + 1;
    }
  }
}
