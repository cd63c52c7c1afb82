/** The part of the Minecraft server (Bukkit) that the clock plugin touches:
    worlds made of block voxels, each holding a material, and the set of
    chunks that are currently loaded. */
module Host {

  /** A material is identified by its enum constant's name, e.g. "STONE". */
  type Material = string

  const AIR: Material := "AIR"

  /** A voxel: the world's identifier and integral block coordinates. */
  datatype Block = Block(world: string, x: int, y: int, z: int)

  /** A 16 x 16 column of voxels, addressed by the block coordinates shifted
      right by four bits. */
  datatype Chunk = Chunk(world: string, x: int, z: int)

  /** The chunk a block belongs to. Bukkit computes `blockX >> 4`, which is
      division by 16 rounded down, as Dafny's division by a positive divisor is. */
  function ChunkOf(b: Block): (c: Chunk)
    ensures c.world == b.world
    ensures 16 * c.x <= b.x < 16 * c.x + 16 && 16 * c.z <= b.z < 16 * c.z + 16
  {
    Chunk(b.world, b.x / 16, b.z / 16)
  }

  /** Voxel contents: a block missing from the map is AIR, and AIR is never
      stored, so two maps are equal exactly when every voxel reads the same. */
  type World = map<Block, Material>

  predicate AirFree(w: World)
  {
    AIR !in w.Values
  }

  function TypeAt(w: World, b: Block): Material
  {
    if b in w then w[b] else AIR
  }

  /** `block.type = m` on one voxel. */
  function Painted(w: World, b: Block, m: Material): World
  {
    if m == AIR then w - {b} else w[b := m]
  }

  /** `block.type = m` on every voxel of `s`, in any order. */
  function PaintedAll(w: World, s: set<Block>, m: Material): World
  {
    if m == AIR then w - s else w + map b | b in s :: m
  }

  /** Reading back what was painted: the painted voxels hold m and every other
      voxel keeps its material; painting keeps AIR out of the map. */
  lemma PaintedAllReads(w: World, s: set<Block>, m: Material, b: Block)
    requires AirFree(w)
    ensures AirFree(PaintedAll(w, s, m))
    ensures TypeAt(PaintedAll(w, s, m), b) == if b in s then m else TypeAt(w, b)
  {
    var r := PaintedAll(w, s, m);
    if m != AIR {
      forall k | k in r
        ensures r[k] != AIR
      {
        if k in s {
          assert r[k] == m;
        } else {
          assert r[k] == w[k];
        }
      }
    }
  }

  /** Painting one more voxel extends the painted set by that voxel. */
  lemma {:induction false} PaintedAllGrow(w: World, s: set<Block>, b: Block, m: Material)
    ensures Painted(PaintedAll(w, s, m), b, m) == PaintedAll(w, s + {b}, m)
  {
    if m != AIR {
      var painted := map k | k in s + {b} :: m;
      assert (map k | k in s :: m)[b := m] == painted;
      assert (w + map k | k in s :: m)[b := m] == w + painted;
    }
  }

  /** The server's block state. Only the material of voxels is modelled; the
      set of loaded chunks and the worlds are host state the plugin reads. */
  class Server {
    var blocks: World
    var loaded: set<Chunk>
    /** Every voxel written, in order. */
    ghost var writes: seq<Block>
    /** The identifiers `Bukkit.getWorld` resolves. */
    const worlds: set<string>

    ghost predicate Valid()
      reads this
    {
      AirFree(blocks)
    }

    constructor (worlds: set<string>, blocks: World, loaded: set<Chunk>)
      requires AirFree(blocks)
      ensures Valid()
      ensures this.worlds == worlds && this.blocks == blocks && this.loaded == loaded && writes == []
    {
      this.worlds := worlds;
      this.blocks := blocks;
      this.loaded := loaded;
      writes := [];
    }

    /** `block.type` */
    function TypeOf(b: Block): Material
      reads this
    {
      TypeAt(blocks, b)
    }

    function IsLoaded(b: Block): bool
      reads this
    {
      ChunkOf(b) in loaded
    }

    /** `block.type = m` */
    method SetType(b: Block, m: Material)
      requires Valid()
      modifies this`blocks, this`writes
      ensures Valid()
      ensures blocks == Painted(old(blocks), b, m)
      ensures TypeOf(b) == m && forall b' :: b' != b ==> TypeOf(b') == old(TypeOf(b'))
      ensures writes == old(writes) + [b]
    {
      blocks := Painted(blocks, b, m);
      writes := writes + [b];
    }
  }
}
