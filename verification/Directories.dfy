/**
 Where a process's relative paths lead. Different ways of naming one file by system calls are
 reported with one and the same resource.
 */
module Directories {
  import opened Wrappers
  import opened Text
  import opened Events
  import opened Tracker
  import Paths

  /** A finished call of one process and what the tracee's memory yields at its exit. */
  datatype Done = Done(call: RawSyscall, memory: Memory)

  function After(p: Process, d: Done): Process {
    SyscallEffect(p, d.call, d.memory).process
  }

  function Reported(p: Process, d: Done): Option<string> {
    var event := SyscallEffect(p, d.call, d.memory).event;
    if event.Some? then Some(event.value.resource) else None
  }

  // ---- The calls that take part ----

  /** The call opens this path, seen from this directory descriptor. */
  predicate Opens(d: Done, dirfd: int, path: string) {
    || (d.call.name.Open? && dirfd == AT_FDCWD && d.memory.ReadString(d.call.args[0]) == path)
    || ((d.call.name.OpenAt? || d.call.name.OpenAt2?)
        && Fd(d.call, 0) == dirfd && d.memory.ReadString(d.call.args[1]) == path)
  }

  function OpenFlags(d: Done): U64 {
    if d.call.name.Open? then d.call.args[1] else OpenAtFlags(d.call, d.memory)
  }

  /** A successful open of a directory as such, yielding this descriptor. */
  predicate OpensDirectory(d: Done, path: string, fd: int) {
    Opens(d, AT_FDCWD, path) && HasFlag(OpenFlags(d), O_DIRECTORY) && d.call.result == fd
  }

  predicate ChangesTo(d: Done, path: string) {
    d.call.name.Chdir? && d.call.result == 0 && d.memory.ReadString(d.call.args[0]) == path
  }

  predicate ChangesToFd(d: Done, fd: int) {
    d.call.name.Fchdir? && d.call.result == 0 && Fd(d.call, 0) == fd
  }

  /** The resource of a path as a process in the given directory means it. */
  function Meant(cwd: string, path: string): string {
    Paths.Normalize(Paths.Append(cwd, path))
  }

  lemma OpenReports(p: Process, d: Done, dirfd: int, path: string)
    requires Opens(d, dirfd, path) && path != ""
    ensures Reported(p, d) == Some(ResolvePath(p, dirfd, path))
  {
  }

  lemma ResolvesFromCwd(p: Process, path: string)
    requires path != ""
    ensures ResolvePath(p, AT_FDCWD, path) == Meant(p.cwd, path)
  {
  }

  /** The directory's descriptor then stands for the directory's resource. */
  lemma DirectoryIsKept(p: Process, d: Done, path: string, fd: int)
    requires OpensDirectory(d, path, fd) && path != "" && 0 <= fd < 0x8000_0000
    ensures After(p, d).cwd == p.cwd && fd in After(p, d).fds
    ensures After(p, d).fds[fd] == Resource(FileResource, Meant(p.cwd, path), true)
  {
    ResolvesFromCwd(p, path);
  }

  lemma FchdirMoves(p: Process, d: Done, fd: int)
    requires ChangesToFd(d, fd) && fd in p.fds && p.fds[fd].kind.FileResource?
    ensures After(p, d).cwd == p.fds[fd].name
  {
  }

  lemma ResolvesFromDirectory(p: Process, fd: int, path: string)
    requires fd in p.fds && p.fds[fd].kind.FileResource? && p.fds[fd].isDirectory
    requires 0 <= fd && path != "" && !Paths.IsAbsolute(path)
    ensures ResolvePath(p, fd, path) == Meant(p.fds[fd].name, path)
  {
  }

  // ---- One file, several routes ----

  /**
   chdir(a) and open(b), opening a as a directory and openat(fd, b), the same with fchdir(fd)
   and open(b), and open(a/b) all report one resource, whatever dots and slashes a and b have.
   */
  lemma RoutesAgree(
    p: Process, a: string, b: string, fd: int,
    chdir: Done, openDirectory: Done, fchdir: Done, openB: Done, openAtB: Done, openWhole: Done)
    requires a != "" && b != "" && !Paths.IsAbsolute(b) && 0 <= fd < 0x8000_0000
    requires ChangesTo(chdir, a) && OpensDirectory(openDirectory, a, fd) && ChangesToFd(fchdir, fd)
    requires Opens(openB, AT_FDCWD, b) && Opens(openAtB, fd, b)
    requires Opens(openWhole, AT_FDCWD, Paths.Append(a, b))
    ensures Reported(p, openWhole) == Some(Meant(p.cwd, Paths.Append(a, b)))
    ensures Reported(After(p, chdir), openB) == Reported(p, openWhole)
    ensures Reported(After(p, openDirectory), openAtB) == Reported(p, openWhole)
    ensures Reported(After(After(p, openDirectory), fchdir), openB) == Reported(p, openWhole)
  {
    var whole := Paths.Append(a, b);
    Paths.NormalizeCompose(p.cwd, a, b);
    Paths.AppendKeepsRoot(a, b);
    OpenReports(p, openWhole, AT_FDCWD, whole);
    ResolvesFromCwd(p, whole);
    ByChdir(p, a, b, chdir, openB);
    ByDirectory(p, a, b, fd, openDirectory, fchdir, openB, openAtB);
  }

  lemma ByChdir(p: Process, a: string, b: string, chdir: Done, openB: Done)
    requires a != "" && b != "" && ChangesTo(chdir, a) && Opens(openB, AT_FDCWD, b)
    ensures Reported(After(p, chdir), openB) == Some(Meant(Meant(p.cwd, a), b))
  {
    ResolvesFromCwd(p, a);
    assert After(p, chdir).cwd == Meant(p.cwd, a);
    OpenReports(After(p, chdir), openB, AT_FDCWD, b);
    ResolvesFromCwd(After(p, chdir), b);
  }

  lemma ByDirectory(
    p: Process, a: string, b: string, fd: int, openDirectory: Done, fchdir: Done, openB: Done, openAtB: Done)
    requires a != "" && b != "" && !Paths.IsAbsolute(b) && 0 <= fd < 0x8000_0000
    requires OpensDirectory(openDirectory, a, fd) && ChangesToFd(fchdir, fd)
    requires Opens(openB, AT_FDCWD, b) && Opens(openAtB, fd, b)
    ensures Reported(After(p, openDirectory), openAtB) == Some(Meant(Meant(p.cwd, a), b))
    ensures Reported(After(After(p, openDirectory), fchdir), openB) == Some(Meant(Meant(p.cwd, a), b))
  {
    var q := After(p, openDirectory);
    DirectoryIsKept(p, openDirectory, a, fd);
    OpenReports(q, openAtB, fd, b);
    ResolvesFromDirectory(q, fd, b);
    FchdirMoves(q, fchdir, fd);
    var r := After(q, fchdir);
    OpenReports(r, openB, AT_FDCWD, b);
    ResolvesFromCwd(r, b);
  }

  // ---- Whole histories ----

  function AfterAll(p: Process, done: seq<Done>): Process {
    if done == [] then p else After(AfterAll(p, done[..|done| - 1]), done[|done| - 1])
  }

  predicate Moves(d: Done) {
    d.call.name.Chdir? && d.call.result == 0 && d.memory.ReadString(d.call.args[0]) != ""
  }

  /** A successful fchdir to a descriptor whose file is tracked. */
  predicate MovesByFd(p: Process, d: Done) {
    ChangesToFd(d, Fd(d.call, 0)) && Fd(d.call, 0) in p.fds && p.fds[Fd(d.call, 0)].kind.FileResource?
  }

  /**
   The directory names that the process has gone through, written one behind the other; a
   change to a descriptor starts again at the name that the descriptor then has.
   */
  function Walked(p: Process, done: seq<Done>): string {
    if done == [] then p.cwd
    else
      var before, d := done[..|done| - 1], done[|done| - 1];
      if Moves(d) then Paths.Append(Walked(p, before), d.memory.ReadString(d.call.args[0]))
      else if MovesByFd(AfterAll(p, before), d) then AfterAll(p, before).fds[Fd(d.call, 0)].name
      else Walked(p, before)
  }

  /** The last call that moved the directory did so by name. */
  predicate MovedByName(p: Process, done: seq<Done>) {
    done != [] &&
    var before, d := done[..|done| - 1], done[|done| - 1];
    Moves(d) || (!MovesByFd(AfterAll(p, before), d) && MovedByName(p, before))
  }

  lemma CallMovesCwd(p: Process, d: Done)
    ensures After(p, d).cwd ==
            if Moves(d) then Meant(p.cwd, d.memory.ReadString(d.call.args[0]))
            else if MovesByFd(p, d) then p.fds[Fd(d.call, 0)].name
            else p.cwd
  {
  }

  /** Two directories from which every path leads to the same place. */
  ghost predicate SameDirectory(a: string, b: string) {
    forall path: string | path != "" :: Meant(a, path) == Meant(b, path)
  }

  /**
   After any calls the tracked directory is the one that was walked to, in its normal form if
   it was reached by name; every path leads from it to where it leads from the untouched chain.
   */
  lemma {:induction false} CwdIsWalked(p: Process, done: seq<Done>)
    ensures AfterAll(p, done).cwd ==
            if MovedByName(p, done) then Paths.Normalize(Walked(p, done)) else Walked(p, done)
    ensures SameDirectory(AfterAll(p, done).cwd, Walked(p, done))
  {
    if done != [] {
      var before, d := done[..|done| - 1], done[|done| - 1];
      CwdIsWalked(p, before);
      CallMovesCwd(AfterAll(p, before), d);
      if Moves(d) {
        WalksOn(AfterAll(p, before).cwd, Walked(p, before), d.memory.ReadString(d.call.args[0]));
      }
    }
  }

  /** Normalising after one more name loses nothing. */
  lemma WalksOn(cwd: string, walked: string, name: string)
    requires SameDirectory(cwd, walked) && name != ""
    ensures Meant(cwd, name) == Paths.Normalize(Paths.Append(walked, name))
    ensures SameDirectory(Meant(cwd, name), Paths.Append(walked, name))
  {
    forall path: string | path != ""
      ensures Meant(Meant(cwd, name), path) == Meant(Paths.Append(walked, name), path)
    {
      assert Meant(cwd, name) == Meant(walked, name);
      MeantFromNormal(Paths.Append(walked, name), path);
      MeantFromNormal(walked, name);
    }
  }

  lemma MeantFromNormal(directory: string, path: string)
    requires path != ""
    ensures directory != "" ==> Meant(Paths.Normalize(directory), path) == Meant(directory, path)
    ensures Paths.Append(directory, path) != ""
  {
    if !Paths.IsAbsolute(path) {
      Paths.AppendKeepsRoot(directory, path);
      if directory != "" {
        Paths.NormalizeAppend(directory, path);
      }
    }
  }

  /** So an open reports, after any calls, what the untouched chain of names would, normalised once. */
  lemma {:induction false} OpenAfterWalk(p: Process, done: seq<Done>, d: Done, path: string)
    requires Opens(d, AT_FDCWD, path) && path != ""
    ensures Reported(AfterAll(p, done), d) == Some(Meant(Walked(p, done), path))
  {
    CwdIsWalked(p, done);
    OpenReports(AfterAll(p, done), d, AT_FDCWD, path);
    ResolvesFromCwd(AfterAll(p, done), path);
  }
}
