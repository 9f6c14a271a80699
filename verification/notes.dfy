/** The note directories both generators write into, and how a run ends. */
module Notes {
  /** A note directory: the content of each note by file name, and the
      order in which the directory lists them. */
  datatype Dir = Dir(files: map<string, string>, listing: seq<string>)

  predicate WellFormed(dir: Dir) {
    (forall n :: n in dir.listing ==> n in dir.files) && (forall n :: n in dir.files ==> n in dir.listing)
  }

  /** How a run ends: the note exists and is left alone, the note is
      written, or an error ends the program. */
  datatype Outcome = Skipped(name: string) | Generated(name: string, content: string) | Failed(error: string)

  /** The process exit status: 0 after a skip or a write, 1 after an error. */
  function ExitCode(o: Outcome): (code: int)
    ensures code == 0 || code == 1
    ensures code == 1 <==> o.Failed?
  {
    if o.Failed? then 1 else 0
  }

  /** The directory after the run: a written note replaces or adds its
      file; a skip or an error writes nothing. */
  function Persist(dir: Dir, o: Outcome): (r: Dir)
    requires WellFormed(dir)
    ensures WellFormed(r)
    ensures o.Generated? ==> r.files == dir.files[o.name := o.content]
    ensures !o.Generated? ==> r == dir
  {
    match o
    case Generated(name, content) =>
      Dir(dir.files[name := content], if name in dir.files then dir.listing else dir.listing + [name])
    case _ => dir
  }
}
