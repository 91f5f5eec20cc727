/**
 * The part of the filesystem the controller touches: the live temporary files
 * and their bytes. Fresh names come from a counter, so a new path is never
 * one that is already live.
 */
module TempStore {
  import opened Base

  type Path = nat

  class TempFiles {
    /** The live files and what each holds. */
    var contents: map<Path, Bytes>
    /** The name the next `CreateTemp` hands out. */
    var next: Path
    /** Every path handed out, in order. */
    ghost var created: seq<Path>
    /** Every path a delete-if-exists was attempted on, in order. */
    ghost var attempted: seq<Path>

    ghost predicate Valid()
      reads this
    {
      (forall p :: p in contents ==> p < next) &&
      (forall i :: 0 <= i < |created| ==> created[i] < next)
    }

    constructor ()
      ensures Valid()
      ensures contents == map[] && next == 0 && created == [] && attempted == []
    {
      contents := map[];
      next := 0;
      created := [];
      attempted := [];
    }

    /** `Files.createTempFile`: a new empty file under a fresh name, unless the call throws. */
    method CreateTemp(outcome: Io) returns (p: Result<Path>)
      requires Valid()
      modifies this
      ensures Valid()
      ensures attempted == old(attempted)
      ensures outcome.Throws? ==>
        p == Err(outcome.message) &&
        contents == old(contents) && next == old(next) && created == old(created)
      ensures outcome.Completes? ==>
        p == Ok(old(next)) && old(next) !in old(contents) &&
        contents == old(contents)[old(next) := []] &&
        next == old(next) + 1 && created == old(created) + [old(next)]
    {
      if outcome.Throws? {
        return Err(outcome.message);
      }
      p := Ok(next);
      contents := contents[next := []];
      created := created + [next];
      next := next + 1;
    }

    /** `Files.copy` with REPLACE_EXISTING, or the merge writing its destination: `p` holds `data`. */
    method Write(p: Path, data: Bytes)
      requires Valid() && p < next
      modifies this
      ensures Valid()
      ensures contents == old(contents)[p := data]
      ensures next == old(next) && created == old(created) && attempted == old(attempted)
    {
      contents := contents[p := data];
    }

    /**
     * `Files.deleteIfExists` inside a try whose catch only logs: when the call
     * throws (`fails`), the file stays and nothing else happens.
     */
    method DeleteIfExists(p: Path, fails: bool)
      requires Valid()
      modifies this
      ensures Valid()
      ensures attempted == old(attempted) + [p]
      ensures contents == if fails then old(contents) else old(contents) - {p}
      ensures next == old(next) && created == old(created)
    {
      attempted := attempted + [p];
      if !fails {
        contents := contents - {p};
      }
    }
  }
}
