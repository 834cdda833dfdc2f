/** Process-wide helpers: the program name that prefixes every diagnostic
    (set once, then read), the shape of a fatal diagnostic, and the
    allocator that dies instead of returning null. */
module Util {

  datatype Option<T> = None | Some(value: T)

  /** An operation that either completes with a value or calls die(message). */
  datatype Result<T> = Ok(value: T) | Died(message: string)

  datatype Status = ExitSuccess | ExitFailure

  /** What a run of a program leaves behind. */
  datatype Exit = Exit(status: Status, stdout: string, stderr: string)

  /** The file system a run sees: the contents of the files that can be
      opened, and the strerror() text of the errno an fopen of any other
      path leaves behind. */
  datatype FileSystem = FileSystem(files: map<string, string>, errnoText: string)

  const ErrorInfix := ": error: "

  /** What die() writes to standard error: the program name, ": error: ",
      the formatted message and one line end. */
  function DieText(progname: string, message: string): (text: string)
    ensures |text| == |progname| + |ErrorInfix| + |message| + 1
    ensures text[..|progname|] == progname
    ensures text[|progname|..|progname| + |ErrorInfix|] == ErrorInfix
    ensures text[|progname| + |ErrorInfix|..|text| - 1] == message
    ensures text[|text| - 1] == '\n'
  {
    progname + ErrorInfix + message + "\n"
  }

  /** Two diagnostics of one program are equal only if their messages are. */
  lemma DieTextInjective(progname: string, m1: string, m2: string)
    requires DieText(progname, m1) == DieText(progname, m2)
    ensures m1 == m2
  {
    var t := DieText(progname, m1);
    assert m1 == t[|progname| + |ErrorInfix|..|t| - 1];
  }

  /** How a run that finished with r ends: its output and success, or the
      diagnostic die() writes and failure. */
  function ExitOf(progname: string, r: Result<string>): (e: Exit)
    ensures e.status == ExitSuccess <==> r.Ok?
    ensures r.Ok? ==> e.stdout == r.value && e.stderr == ""
    ensures r.Died? ==> e.stdout == "" && e.stderr == DieText(progname, r.message)
  {
    match r
    case Ok(out) => Exit(ExitSuccess, out, "")
    case Died(m) => Exit(ExitFailure, "", DieText(progname, m))
  }

  /** g_progname: unset until the one call of SetProgname. */
  class ProgramName {
    var name: Option<string>

    constructor ()
      ensures name == None
    {
      name := None;
    }

    /** set_progname: may be called once only. */
    method SetProgname(n: string)
      requires name == None
      modifies this
      ensures name == Some(n)
    {
      name := Some(n);
    }

    /** progname: may be called only once the name is set. */
    method Progname() returns (n: string)
      requires name.Some?
      ensures Some(n) == name
    {
      n := name.value;
    }

    /** die: what the call writes to standard error before the process
        exits with failure. */
    method Die(message: string) returns (stderr: string)
      requires name.Some?
      ensures stderr == DieText(name.value, message)
    {
      var p := Progname();
      stderr := DieText(p, message);
    }
  }

  const SizeMax: nat := 0xFFFF_FFFF_FFFF_FFFF

  /** calloc(count, size) returns memory exactly when the size computation
      does not overflow size_t and the memory is there to give. */
  predicate CallocSucceeds(count: nat, size: nat, memoryAvailable: bool) {
    count * size <= SizeMax && memoryAvailable
  }

  /** xcalloc: zeroed memory of count * size bytes, or die("out of memory");
      it never hands back a null pointer. */
  method XCalloc(count: nat, size: nat, memoryAvailable: bool) returns (r: Result<array<bv8>>)
    ensures r.Ok? <==> CallocSucceeds(count, size, memoryAvailable)
    ensures r.Died? ==> r.message == "out of memory"
    ensures r.Ok? ==> fresh(r.value) && r.value.Length == count * size
    ensures r.Ok? ==> forall i | 0 <= i < r.value.Length :: r.value[i] == 0
  {
    if !CallocSucceeds(count, size, memoryAvailable) {
      return Died("out of memory");
    }
    var block := new bv8[count * size](_ => 0);
    return Ok(block);
  }
}
