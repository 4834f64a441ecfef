/** Replacing a stored record by renames (src/private_state.rs), with every directory state
    that a crash could leave behind. */
module RecordInstall {
  import opened Basics

  type Content = int

  /** What the record, the new file and the set-aside old file hold. */
  datatype Files = Files(output: Option<Content>, temporary: Option<Content>, backup: Option<Content>)

  /** The old content, if there was any, or the new one is in some file. */
  predicate Survives(s: Files, before: Option<Content>, content: Content) {
    before.None? || s.output == before || s.backup == before || s.output == Some(content)
  }

  /** The new content is readable under the record's name, the old one is, or the record is
      missing while its old content is set aside. */
  predicate Readable(s: Files, before: Option<Content>, content: Content) {
    s.output == before || s.output == Some(content) || (s.output.None? && s.backup == before)
  }

  class Folder {
    var files: Files
    /** Every state the directory has been in, the current one last. */
    ghost var trail: seq<Files>

    ghost predicate Valid()
      reads this
    {
      trail != [] && trail[|trail| - 1] == files
    }

    constructor (files: Files)
      ensures Valid() && this.files == files && trail == [files]
    {
      this.files, trail := files, [files];
    }

    method Become(next: Files)
      requires Valid()
      modifies this
      ensures Valid() && files == next && trail == old(trail) + [next]
    {
      files, trail := next, trail + [next];
    }

    /** Moves the old record aside, the new file in, and drops the old one; puts the old
        one back when the new file cannot be moved. The flags say which calls succeed. */
    method Install(aside: bool, moved: bool, back: bool, dropped: bool, synced: bool) returns (ok: bool)
      requires Valid() && files.temporary.Some? && files.backup.None?
      modifies this
      ensures Valid() && old(trail) <= trail
      ensures forall s <- trail[|old(trail)|..] ::
                Survives(s, old(files.output), old(files.temporary.value)) && Readable(s, old(files.output), old(files.temporary.value))
      ensures ok ==> files == Files(old(files.temporary), None, None)
      ensures ok <==> moved && synced && (old(files.output).Some? ==> aside && dropped)
      ensures !ok ==>
                files.output == if old(files.output).Some? && !aside then old(files.output)
                                else if moved then old(files.temporary)
                                else if back then old(files.output)
                                else None
      ensures old(files.output).Some? && aside ==> exists s <- trail[|old(trail)|..] :: s.output.None?
    {
      var had := files.output.Some?;
      if had {
        if !aside {
          return false;
        }
        Become(files.(backup := files.output, output := None));
        assert trail[|old(trail)|..] == [files];
      }
      ghost var soFar := trail[|old(trail)|..];
      if !moved {
        if had && back {
          Become(files.(output := files.backup, backup := None));
          assert trail[|old(trail)|..] == soFar + [files];
        }
        return false;
      }
      Become(files.(output := files.temporary, temporary := None));
      ghost var installed := files;
      assert trail[|old(trail)|..] == soFar + [installed];
      if had {
        if !dropped {
          return false;
        }
        Become(files.(backup := None));
        assert trail[|old(trail)|..] == soFar + [installed, files];
      }
      return synced;
    }
  }
}
