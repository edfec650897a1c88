/** The values that travel between the components: markers, system calls, events. */
module Events {
  import opened Wrappers
  import opened Text

  /** A process or thread id handed out by the kernel. */
  type Tid = n: int | 0 < n < 0x8000_0000 witness 1

  datatype EventType =
    | CommandStart
    | CommandEnd
    | ProcessExec
    | ProcessFork
    | ProcessExit
    | FileOpen
    | FileRead
    | FileWrite
    | NetworkConnect
    | LocalIpcConnect

  datatype Event = Event(
    ns: U64,
    pid: int,
    tid: int,
    kind: EventType,
    resource: string,
    result: int,
    errno: int,
    metadata: map<string, string>,
    command: Option<U64>)

  datatype MarkerType = Arm | Start | End

  datatype CommandMarker = CommandMarker(kind: MarkerType, id: U64, text: string, cwd: string, exitCode: int)

  /** The system calls that some component reacts to. */
  datatype SyscallName =
    | Open | OpenAt | OpenAt2
    | Read | Write
    | Close | Dup | Dup2 | Dup3 | Fcntl
    | Socket | Connect
    | Chdir | Fchdir
    | OtherCall

  type Registers = a: seq<U64> | |a| == 6 witness [0, 0, 0, 0, 0, 0]

  datatype RawSyscall = RawSyscall(tid: Tid, name: SyscallName, args: Registers, result: I64, ns: U64)

  /** A register read as a file descriptor. */
  function Fd(call: RawSyscall, i: nat): I32
    requires i < 6
  {
    ToI32(call.args[i])
  }

  datatype SocketEndpoint = SocketEndpoint(isLocal: bool, resource: string, family: string)

  /**
   What reading the tracee yields at a system call's exit: strings by address (empty when
   unreadable), the flags field of open_how structures, and decoded socket addresses
   (absent for families that are not recorded).
   */
  datatype Memory = Memory(
    strings: map<U64, string>,
    openHowFlags: map<U64, U64>,
    endpoints: map<U64, SocketEndpoint>)
  {
    function ReadString(address: U64): string {
      if address in strings then strings[address] else ""
    }

    function ReadEndpoint(address: U64): Option<SocketEndpoint> {
      if address in endpoints then Some(endpoints[address]) else None
    }
  }

  datatype PtraceEvent = Fork | Vfork | Clone | OtherEvent

  const CLONE_THREAD: nat := 0x1_0000
  const O_DIRECTORY: nat := 0x1_0000
  const AT_FDCWD := -100

  /** Both flags tested in the source are one single bit. */
  predicate HasFlag(value: nat, flag: nat)
    requires flag > 0
  {
    (value / flag) % 2 == 1
  }
}
