/** `AssetCache` (code/anker/core/anker_asset_cache.cpp): vertex shaders,
    pixel shaders and textures cached by identifier behind reference-counted
    pointers. The render device is described by what it answers for each
    identifier. */
module AssetCache {
  import FileUtils

  /** An input element description of a vertex shader, as an opaque value. */
  type InputElement = nat

  /** What an asset holds once the device has loaded it. */
  datatype AssetData = AssetData(payload: seq<bv8>, inputLayout: seq<InputElement>)

  /** The answers of the render device: the shaders it can compile and the
      texture data it produces, by identifier. */
  datatype Device = Device(
    vertexShaders: map<string, seq<bv8>>,
    pixelShaders: map<string, seq<bv8>>,
    textures: map<string, seq<bv8>>)

  /** The texture the device produces for `id`; a texture that fails to load
      keeps the contents of a default-constructed one. */
  function TextureData(device: Device, id: string): AssetData {
    AssetData(if id in device.textures then device.textures[id] else [], [])
  }

  /** The pointee of an `AssetPtr`. `holders` counts copies of the pointer
      held outside the cache, so the cache's own copy makes the use count
      `holders + 1`. */
  class Asset {
    var data: AssetData
    var holders: nat

    constructor (data: AssetData)
      ensures this.data == data && holders == 0
    {
      this.data := data;
      holders := 0;
    }

    /** A copy held outside the cache is destroyed: the use count drops by
        one and the pointee is kept. */
    method Release()
      requires holders > 0
      modifies this
      ensures holders == old(holders) - 1 && data == old(data)
    {
      holders := holders - 1;
    }
  }

  /** `use_count()` of a cached pointer: 0 for null. */
  function UseCount(p: Asset?): nat
    reads p
  {
    if p == null then 0 else p.holders + 1
  }

  type Cache = map<string, Asset?>

  /** `std::erase_if(cache, isUnused)`: the entries whose use count is not 1. */
  function WithoutUnused(cache: Cache): (r: Cache)
    reads set k | k in cache && cache[k] != null :: cache[k]
    ensures forall k :: k in r <==> k in cache && UseCount(cache[k]) != 1
    ensures forall k | k in r :: r[k] == cache[k]
  {
    map k | k in cache && UseCount(cache[k]) != 1 :: cache[k]
  }

  /** Only the entries held by nobody else go: a null entry (a failed shader)
      and an entry someone else holds stay, and clearing again removes
      nothing more. */
  lemma ClearUnusedProperties(cache: Cache)
    ensures forall k | k in cache && cache[k] == null :: k in WithoutUnused(cache)
    ensures forall k | k in cache && cache[k] != null && cache[k].holders > 0 :: k in WithoutUnused(cache)
    ensures forall k | k in cache && cache[k] != null && cache[k].holders == 0 :: k !in WithoutUnused(cache)
    ensures WithoutUnused(WithoutUnused(cache)) == WithoutUnused(cache)
  {
  }

  /** The non-null pointers of a cache. */
  function Pointers(cache: Cache): set<Asset> {
    set k | k in cache && cache[k] != null :: cache[k]
  }

  /** No two entries share a pointer: a miss always stores a fresh one. */
  predicate Unshared(cache: Cache) {
    forall k, k' | k in cache && k' in cache && k != k' && cache[k] != null :: cache[k] != cache[k']
  }

  /** No pointer of `a` is held by `b`. */
  predicate Apart(a: Cache, b: Cache) {
    forall k, k' | k in a && k' in b && a[k] != null :: a[k] != b[k']
  }

  /** Every pointer is held under one key of one of the three caches, and
      no texture entry is null. */
  predicate ValidCaches(v: Cache, p: Cache, t: Cache) {
    && Unshared(v) && Unshared(p) && Unshared(t)
    && Apart(v, p) && Apart(v, t) && Apart(p, t)
    && forall k | k in t :: t[k] != null
  }

  /** Caches that are apart share no pointer. */
  lemma ApartDisjoint(a: Cache, b: Cache)
    requires Apart(a, b)
    ensures Pointers(a) !! Pointers(b)
  {
  }

  /** `r` keeps some of the entries of `c`, unchanged. */
  predicate SubCache(r: Cache, c: Cache) {
    forall k | k in r :: k in c && r[k] == c[k]
  }

  /** Dropping entries keeps a cache unshared and adds no pointer. */
  lemma SubCacheKeeps(r: Cache, c: Cache)
    requires Unshared(c) && SubCache(r, c)
    ensures Unshared(r) && Pointers(r) <= Pointers(c)
  {
  }

  /** Dropping entries from the three caches keeps them valid. */
  lemma DroppingKeepsValid(v: Cache, p: Cache, t: Cache, v': Cache, p': Cache, t': Cache)
    requires ValidCaches(v, p, t)
    requires SubCache(v', v) && SubCache(p', p) && SubCache(t', t)
    ensures ValidCaches(v', p', t')
  {
    SubCacheKeeps(v', v);
    SubCacheKeeps(p', p);
    SubCacheKeeps(t', t);
  }

  /** The cache that handles a modified identifier in `reloadModifiedAssets`:
      vertex shaders first, then pixel shaders, then textures. */
  datatype Target = VertexCache | PixelCache | TextureCache | Untracked

  class Cacher {
    var vertexShaders: Cache
    var pixelShaders: Cache
    var textures: Cache
    /** What the render device answers now; the files behind it can be
        edited between two calls. */
    var device: Device

    /** Every pointer is held under one key of one cache, and no texture
        entry is null. */
    ghost predicate Valid()
      reads this
    {
      ValidCaches(vertexShaders, pixelShaders, textures)
    }

    function Assets(): set<Asset>
      reads this
    {
      Pointers(vertexShaders) + Pointers(pixelShaders) + Pointers(textures)
    }

    /** The data every cached asset holds. */
    ghost function Data(): map<Asset, AssetData>
      reads this, Assets()
    {
      map p | p in Assets() :: p.data
    }

    function TargetOf(id: string): Target
      reads this
    {
      if id in vertexShaders then VertexCache
      else if id in pixelShaders then PixelCache
      else if id in textures then TextureCache
      else Untracked
    }

    constructor (device: Device)
      ensures Valid() && this.device == device
      ensures vertexShaders == map[] && pixelShaders == map[] && textures == map[]
    {
      this.device := device;
      vertexShaders, pixelShaders, textures := map[], map[], map[];
    }

    /** `loadVertexShaderUncached`: null when the device cannot compile the
        shader, else a fresh asset holding it and its input layout. */
    method LoadVertexShaderUncached(id: string, inputs: seq<InputElement>) returns (p: Asset?)
      ensures p == null <==> id !in device.vertexShaders
      ensures p != null ==> fresh(p) && p.data == AssetData(device.vertexShaders[id], inputs) && p.holders == 0
    {
      if id !in device.vertexShaders {
        return null;
      }
      p := new Asset(AssetData(device.vertexShaders[id], inputs));
    }

    /** `loadPixelShaderUncached`: null when the device cannot compile the
        shader, else a fresh asset holding it. */
    method LoadPixelShaderUncached(id: string) returns (p: Asset?)
      ensures p == null <==> id !in device.pixelShaders
      ensures p != null ==> fresh(p) && p.data == AssetData(device.pixelShaders[id], []) && p.holders == 0
    {
      if id !in device.pixelShaders {
        return null;
      }
      p := new Asset(AssetData(device.pixelShaders[id], []));
    }

    /** `loadTextureUncached`: always a fresh asset, whether or not the
        device loaded the texture. */
    method LoadTextureUncached(id: string) returns (p: Asset)
      ensures fresh(p) && p.data == TextureData(device, id) && p.holders == 0
    {
      p := new Asset(TextureData(device, id));
    }

    /** `loadVertexShader`: a hit returns the stored pointer and changes
        nothing else; a miss stores the uncached result, null included, so a
        failed shader is not retried. The pointer returned is a copy, so a
        non-null one has one holder more than before (one for a fresh
        asset). */
    method LoadVertexShader(id: string, inputs: seq<InputElement>) returns (p: Asset?)
      requires Valid()
      modifies this, Assets()
      ensures Valid()
      ensures id in old(vertexShaders) ==>
                && p == old(vertexShaders[id]) && vertexShaders == old(vertexShaders)
                && (p != null ==> p.holders == old(p.holders) + 1)
      ensures id !in old(vertexShaders) ==>
                && vertexShaders == old(vertexShaders)[id := p]
                && (p == null <==> id !in device.vertexShaders)
                && (p != null ==> fresh(p) && p.data == AssetData(device.vertexShaders[id], inputs) && p.holders == 1)
      ensures pixelShaders == old(pixelShaders) && textures == old(textures) && device == old(device)
      ensures forall a | a in old(Assets()) :: a.data == old(a.data)
      ensures forall a | a in old(Assets()) && a != p :: a.holders == old(a.holders)
    {
      if id in vertexShaders {
        p := vertexShaders[id];
      } else {
        p := LoadVertexShaderUncached(id, inputs);
        vertexShaders := vertexShaders[id := p];
      }
      if p != null {
        p.holders := p.holders + 1;
      }
    }

    /** `loadPixelShader`: as `loadVertexShader`, for the pixel shader
        cache. */
    method LoadPixelShader(id: string) returns (p: Asset?)
      requires Valid()
      modifies this, Assets()
      ensures Valid()
      ensures id in old(pixelShaders) ==>
                && p == old(pixelShaders[id]) && pixelShaders == old(pixelShaders)
                && (p != null ==> p.holders == old(p.holders) + 1)
      ensures id !in old(pixelShaders) ==>
                && pixelShaders == old(pixelShaders)[id := p]
                && (p == null <==> id !in device.pixelShaders)
                && (p != null ==> fresh(p) && p.data == AssetData(device.pixelShaders[id], []) && p.holders == 1)
      ensures vertexShaders == old(vertexShaders) && textures == old(textures) && device == old(device)
      ensures forall a | a in old(Assets()) :: a.data == old(a.data)
      ensures forall a | a in old(Assets()) && a != p :: a.holders == old(a.holders)
    {
      if id in pixelShaders {
        p := pixelShaders[id];
      } else {
        p := LoadPixelShaderUncached(id);
        pixelShaders := pixelShaders[id := p];
      }
      if p != null {
        p.holders := p.holders + 1;
      }
    }

    /** `loadTexture`: a hit returns the stored pointer; a miss stores a
        fresh, non-null texture. Either way the caller's copy adds a
        holder. */
    method LoadTexture(id: string) returns (p: Asset)
      requires Valid()
      modifies this, Assets()
      ensures Valid()
      ensures id in old(textures) ==> p == old(textures[id]) && textures == old(textures) && p.holders == old(p.holders) + 1
      ensures id !in old(textures) ==>
                && textures == old(textures)[id := p]
                && fresh(p) && p.data == TextureData(device, id) && p.holders == 1
      ensures vertexShaders == old(vertexShaders) && pixelShaders == old(pixelShaders) && device == old(device)
      ensures forall a | a in old(Assets()) :: a.data == old(a.data)
      ensures forall a | a in old(Assets()) && a != p :: a.holders == old(a.holders)
    {
      if id in textures {
        p := textures[id];
      } else {
        p := LoadTextureUncached(id);
        textures := textures[id := p];
      }
      p.holders := p.holders + 1;
    }

    /** The loop body of `reloadModifiedAssets` as written dereferences null
        for `id`: the shader entry it finds is null (a shader whose first
        compile failed), or the shader no longer compiles, so
        `*loadVertexShaderUncached(...)` / `*loadPixelShaderUncached(...)`
        reads through a null pointer. */
    ghost predicate DerefsNull(id: string)
      reads this
    {
      || (TargetOf(id) == VertexCache && (vertexShaders[id] == null || id !in device.vertexShaders))
      || (TargetOf(id) == PixelCache && (pixelShaders[id] == null || id !in device.pixelShaders))
    }

    /** The data an asset of cache `t` holds after reloading identifier
        `id`, given the data it held: the recompiled shader (with the input
        layout it had) or the reloaded texture. A shader the device can no
        longer compile keeps the data it had. */
    function Reloaded(t: Target, id: string, d: AssetData): AssetData
      reads this
    {
      match t
      case VertexCache => if id in device.vertexShaders then AssetData(device.vertexShaders[id], d.inputLayout) else d
      case PixelCache => if id in device.pixelShaders then AssetData(device.pixelShaders[id], []) else d
      case TextureCache => TextureData(device, id)
      case Untracked => d
    }

    /** The data of the entry under key `k` of cache `t`, once the
        identifiers in `done` have been reloaded: reloaded when `t` is the
        cache that handles `k`, as it was (`old0`) otherwise. */
    function Expected(t: Target, k: string, done: set<string>, d: AssetData): AssetData
      reads this
    {
      if k in done && TargetOf(k) == t then Reloaded(t, k, d) else d
    }

    /** Every asset holds its expected data for `done`, relative to the
        data `old0` it held before the reload. */
    ghost predicate ReloadedUpTo(done: set<string>, old0: map<Asset, AssetData>)
      reads this, Assets()
    {
      && (forall k | k in vertexShaders && vertexShaders[k] != null ::
            vertexShaders[k] in old0 && vertexShaders[k].data == Expected(VertexCache, k, done, old0[vertexShaders[k]]))
      && (forall k | k in pixelShaders && pixelShaders[k] != null ::
            pixelShaders[k] in old0 && pixelShaders[k].data == Expected(PixelCache, k, done, old0[pixelShaders[k]]))
      && (forall k | k in textures && textures[k] != null ::
            textures[k] in old0 && textures[k].data == Expected(TextureCache, k, done, old0[textures[k]]))
    }

    /** `reloadModifiedAssets()`, given the data loader's modified paths: for
        each path, the extensions are stripped and the first cache holding
        that identifier has its asset overwritten in place; the keys and
        pointers of all caches stay as they were. A null shader entry is
        skipped and a shader that no longer compiles keeps its old code,
        where the code as written dereferences null (`DerefsNull`). */
    method ReloadModifiedAssets(modifiedFiles: set<string>)
      requires Valid()
      modifies Assets()
      ensures vertexShaders == old(vertexShaders) && pixelShaders == old(pixelShaders) && textures == old(textures)
      ensures forall p | p in Assets() :: p.holders == old(p.holders)
      ensures ReloadedUpTo(Ids(modifiedFiles), old(Data()))
      ensures forall k | k in vertexShaders && vertexShaders[k] != null && k !in device.vertexShaders ::
                vertexShaders[k].data == old(vertexShaders[k].data)
      ensures forall k | k in pixelShaders && pixelShaders[k] != null && k !in vertexShaders && k !in device.pixelShaders ::
                pixelShaders[k].data == old(pixelShaders[k].data)
    {
      ghost var old0 := Data();
      var pending := modifiedFiles;
      ghost var done: set<string> := {};
      while pending != {}
        invariant pending <= modifiedFiles && done == Ids(modifiedFiles - pending)
        invariant forall p | p in Assets() :: p.holders == old(p.holders)
        invariant ReloadedUpTo(done, old0)
        decreases |pending|
      {
        var file :| file in pending;
        var id := FileUtils.StripFileExtensions(file);
        IdsStep(modifiedFiles, pending, file);
        ReloadOne(id, done, old0);
        pending := pending - {file};
        done := done + {id};
      }
      FailedReloadsKeep(done, old0);
    }

    /** Whatever has been reloaded, a shader the device can no longer
        compile still holds the data it had. */
    lemma FailedReloadsKeep(done: set<string>, old0: map<Asset, AssetData>)
      requires ReloadedUpTo(done, old0)
      ensures forall k | k in vertexShaders && vertexShaders[k] != null && k !in device.vertexShaders ::
                vertexShaders[k].data == old0[vertexShaders[k]]
      ensures forall k | k in pixelShaders && pixelShaders[k] != null && k !in vertexShaders && k !in device.pixelShaders ::
                pixelShaders[k].data == old0[pixelShaders[k]]
    {
    }

    /** The body of the reload loop for one identifier: the assets reloaded
        so far are those of `done`, and afterwards those of `done + {id}`. */
    method ReloadOne(id: string, ghost done: set<string>, ghost old0: map<Asset, AssetData>)
      requires Valid()
      requires ReloadedUpTo(done, old0)
      modifies Assets()
      ensures forall p | p in Assets() :: p.holders == old(p.holders)
      ensures ReloadedUpTo(done + {id}, old0)
    {
      if id in vertexShaders {
        ReloadVertexShader(id, done, old0);
      } else if id in pixelShaders {
        ReloadPixelShader(id, done, old0);
      } else if id in textures {
        ReloadTexture(id, done, old0);
      } else {
        UntrackedKeeps(id, done, old0);
      }
    }

    /** An identifier no cache holds reloads nothing. */
    lemma UntrackedKeeps(id: string, done: set<string>, old0: map<Asset, AssetData>)
      requires TargetOf(id) == Untracked && ReloadedUpTo(done, old0)
      ensures ReloadedUpTo(done + {id}, old0)
    {
    }

    /** A modified identifier found among the vertex shaders: the shader is
        recompiled with the input layout it had, and the new compiled code is
        written into the shared asset; a null entry or a failed compile
        leaves the asset as it was. */
    method ReloadVertexShader(id: string, ghost done: set<string>, ghost old0: map<Asset, AssetData>)
      requires Valid() && id in vertexShaders
      requires ReloadedUpTo(done, old0)
      modifies vertexShaders[id]
      ensures forall a | a in Assets() :: a.holders == old(a.holders)
      ensures ReloadedUpTo(done + {id}, old0)
    {
      var p := vertexShaders[id];
      if p != null {
        var q := LoadVertexShaderUncached(id, p.data.inputLayout);
        if q != null {
          p.data := q.data;
        }
      }
    }

    /** A modified identifier found among the pixel shaders: the shader is
        recompiled and written into the shared asset; a null entry or a
        failed compile leaves the asset as it was. */
    method ReloadPixelShader(id: string, ghost done: set<string>, ghost old0: map<Asset, AssetData>)
      requires Valid() && id !in vertexShaders && id in pixelShaders
      requires ReloadedUpTo(done, old0)
      modifies pixelShaders[id]
      ensures forall a | a in Assets() :: a.holders == old(a.holders)
      ensures ReloadedUpTo(done + {id}, old0)
    {
      var p := pixelShaders[id];
      if p != null {
        var q := LoadPixelShaderUncached(id);
        if q != null {
          p.data := q.data;
        }
      }
    }

    /** A modified identifier found among the textures: the texture is
        reloaded and written into the shared asset. */
    method ReloadTexture(id: string, ghost done: set<string>, ghost old0: map<Asset, AssetData>)
      requires Valid() && id !in vertexShaders && id !in pixelShaders && id in textures
      requires ReloadedUpTo(done, old0)
      modifies textures[id]
      ensures forall a | a in Assets() :: a.holders == old(a.holders)
      ensures ReloadedUpTo(done + {id}, old0)
    {
      var p := textures[id];
      var q := LoadTextureUncached(id);
      p.data := q.data;
    }

    /** `clearUnused()`: every entry whose pointer only the cache holds is
        dropped from each cache. */
    method ClearUnused()
      requires Valid()
      modifies this
      ensures Valid()
      ensures vertexShaders == old(WithoutUnused(vertexShaders))
      ensures pixelShaders == old(WithoutUnused(pixelShaders))
      ensures textures == old(WithoutUnused(textures)) && device == old(device)
    {
      var v, p, t := WithoutUnused(vertexShaders), WithoutUnused(pixelShaders), WithoutUnused(textures);
      DroppingKeepsValid(vertexShaders, pixelShaders, textures, v, p, t);
      vertexShaders, pixelShaders, textures := v, p, t;
    }

    /** `clearAll()`: all three caches become empty. */
    method ClearAll()
      modifies this
      ensures Valid()
      ensures vertexShaders == map[] && pixelShaders == map[] && textures == map[] && device == old(device)
    {
      vertexShaders, pixelShaders, textures := map[], map[], map[];
    }

    /** The files behind the device are edited on disk (the data loader then
        reports them as modified): the device answers `d` from now on, and
        the caches are untouched. */
    method ChangeFiles(d: Device)
      modifies this
      ensures device == d
      ensures vertexShaders == old(vertexShaders) && pixelShaders == old(pixelShaders) && textures == old(textures)
    {
      device := d;
    }
  }

  /** As written, a shader whose first compile failed is cached as null, and
      reloading it then dereferences that null entry at line 69. */
  method FailedShaderBreaksReload(d: Device, id: string) returns (c: Cacher)
    requires id !in d.vertexShaders
    ensures c.device == d && c.vertexShaders == map[id := null]
    ensures c.TargetOf(id) == VertexCache && c.DerefsNull(id)
  {
    c := new Cacher(d);
    var p := c.LoadVertexShader(id, []);
  }

  /** As written, a pixel shader that compiled when it was loaded and was
      then edited so that it no longer compiles makes line 74 dereference
      the null pointer `loadPixelShaderUncached` returns. */
  method EditedShaderBreaksReload(d: Device, d': Device, id: string) returns (c: Cacher)
    requires id in d.pixelShaders && id !in d'.pixelShaders
    ensures c.device == d' && c.TargetOf(id) == PixelCache && c.pixelShaders[id] != null
    ensures c.DerefsNull(id)
  {
    c := new Cacher(d);
    var p := c.LoadPixelShader(id);
    c.ChangeFiles(d');
  }

  /** The identifiers `reloadModifiedAssets` looks up for a set of paths. */
  function Ids(files: set<string>): set<string> {
    set f | f in files :: FileUtils.StripFileExtensions(f)
  }

  /** Handling one more pending path adds its identifier to those handled. */
  lemma IdsStep(files: set<string>, pending: set<string>, file: string)
    requires pending <= files && file in pending
    ensures FileUtils.StripFileExtensions(file) in Ids(files)
    ensures Ids(files - (pending - {file})) == Ids(files - pending) + {FileUtils.StripFileExtensions(file)}
  {
    assert files - (pending - {file}) == (files - pending) + {file};
  }
}
