/** The user's home storage as the cleanup command sees it: whether it holds a
    `files` directory, whether it holds any content at all, which cache it has
    and whether that cache has been cleared. */
module Storage {

  /** `OC\Files\Cache\Cache` (the cache the command knows how to clear) or any other. */
  datatype CacheKind = FileCache | OtherCache

  /** The value of a home storage at one moment. `rmdirWorks` is the storage
      driver's behaviour: whether `rmdir('')` manages to remove the content. */
  datatype Home = Home(
    hasFilesDir: bool,
    contentPresent: bool,
    cache: CacheKind,
    cacheCleared: bool,
    rmdirWorks: bool)
  {
    /** A `files` directory is content of the storage. */
    predicate Valid() {
      hasFilesDir ==> contentPresent
    }

    /** `rmdir('')`: the whole root goes when the driver manages it; the cache is
        not touched either way. */
    function AfterRmdir(): (h: Home)
      requires Valid()
      ensures h.Valid()
      ensures rmdirWorks ==> !h.hasFilesDir && !h.contentPresent
      ensures !rmdirWorks ==> h == this
      ensures h.cache == cache && h.cacheCleared == cacheCleared && h.rmdirWorks == rmdirWorks
    {
      if rmdirWorks then this.(hasFilesDir := false, contentPresent := false) else this
    }

    /** `Cache::clear()`: the cache is emptied and nothing else changes. */
    function AfterClear(): (h: Home)
      requires Valid()
      ensures h.Valid() && h.cacheCleared
      ensures h.hasFilesDir == hasFilesDir && h.contentPresent == contentPresent
      ensures h.cache == cache && h.rmdirWorks == rmdirWorks
    {
      this.(cacheCleared := true)
    }
  }

  /** The storage object returned by the home mount, updated in place by the command. */
  class HomeStorage {
    var hasFilesDir: bool
    var contentPresent: bool
    var cache: CacheKind
    var cacheCleared: bool
    const rmdirWorks: bool

    function State(): Home
      reads this
    {
      Home(hasFilesDir, contentPresent, cache, cacheCleared, rmdirWorks)
    }

    ghost predicate Valid()
      reads this
    {
      State().Valid()
    }

    constructor (home: Home)
      requires home.Valid()
      ensures Valid() && State() == home
    {
      hasFilesDir := home.hasFilesDir;
      contentPresent := home.contentPresent;
      cache := home.cache;
      cacheCleared := home.cacheCleared;
      rmdirWorks := home.rmdirWorks;
    }

    /** `is_dir('files')`. */
    method IsFilesDir() returns (d: bool)
      requires Valid()
      ensures d == hasFilesDir
      ensures d ==> contentPresent
    {
      d := hasFilesDir;
    }

    /** `rmdir('')`: removes the whole root; the returned flag says whether it worked. */
    method RemoveRoot() returns (ok: bool)
      requires Valid()
      modifies this
      ensures Valid()
      ensures ok == rmdirWorks
      ensures State() == old(State()).AfterRmdir()
    {
      ok := rmdirWorks;
      if ok {
        hasFilesDir := false;
        contentPresent := false;
      }
    }

    /** `getCache()`, reduced to the kind of the cache object it returns. */
    method GetCache() returns (kind: CacheKind)
      requires Valid()
      ensures kind == cache
    {
      kind := cache;
    }

    /** `$cache->clear()`, only reachable on an `OC\Files\Cache\Cache`. */
    method ClearCache()
      requires Valid() && cache == FileCache
      modifies this
      ensures Valid()
      ensures State() == old(State()).AfterClear()
    {
      cacheCleared := true;
    }
  }
}
