/** The read-only invariant on POSIX: what is published is 0444 or 0555. */
module Permissions {
  import opened Filesystem
  import opened Store

  datatype User = Owner | Group | Other

  function PermFor(mode: Mode, user: User): Perm {
    match user
    case Owner => mode.owner
    case Group => mode.group
    case Other => mode.other
  }

  predicate MayWrite(mode: Mode, user: User) {
    PermFor(mode, user).w
  }

  predicate MayExecute(mode: Mode, user: User) {
    PermFor(mode, user).x
  }

  function ReadOnlyMode(isExecutable: bool): Mode {
    if isExecutable then MODE_555 else MODE_444
  }

  method EnforcePosixMode(disk: Disk, p: Path, isExecutable: bool)
    requires p in disk.fs.names && disk.fs.names[p] in disk.fs.nodes
    modifies disk
    ensures disk.fs == old(disk.fs.Chmod(disk.fs.names[p], ReadOnlyMode(isExecutable)))
  {
    var mode := if isExecutable then MODE_555 else MODE_444;
    disk.SetMode(p, mode);
  }

  method StripReadOnlyPosix(disk: Disk, p: Path)
    requires p in disk.fs.names && disk.fs.names[p] in disk.fs.nodes
    modifies disk
    ensures disk.fs == old(disk.fs.Chmod(disk.fs.names[p], MODE_644))
  {
    disk.SetMode(p, MODE_644);
  }

  /** Whether the owner, the group or anyone else may execute the file. */
  method IsExecutable(disk: Disk, p: Path) returns (r: bool)
    requires p in disk.fs.names && disk.fs.names[p] in disk.fs.nodes
    ensures r == disk.fs.ModeAt(p).Executable()
    ensures r <==> exists user :: MayExecute(disk.fs.ModeAt(p), user)
  {
    var mode := disk.fs.ModeAt(p);
    r := mode.owner.x || mode.group.x || mode.other.x;
    assert mode.owner.x ==> MayExecute(mode, Owner);
    assert mode.group.x ==> MayExecute(mode, Group);
    assert mode.other.x ==> MayExecute(mode, Other);
  }

  /** Enforcing takes the write permission from everyone and leaves the file executable for
      everyone if it was for someone, else for no one; stripping lets the owner alone write and no
      one execute. */
  lemma ModesMean(mode: Mode)
    ensures var sealed := ReadOnlyMode(mode.Executable());
      && sealed.ReadOnly() && (forall user :: !MayWrite(sealed, user))
      && (forall user :: MayExecute(sealed, user) <==> exists u :: MayExecute(mode, u))
    ensures !MODE_644.ReadOnly() && (forall user :: MayWrite(MODE_644, user) <==> user == Owner)
    ensures forall user :: !MayExecute(MODE_644, user)
  {
    assert mode.owner.x ==> MayExecute(mode, Owner);
    assert mode.group.x ==> MayExecute(mode, Group);
    assert mode.other.x ==> MayExecute(mode, Other);
  }

  predicate MayRead(mode: Mode, user: User) {
    PermFor(mode, user).r
  }

  function PermBits(p: Perm): nat {
    (if p.r then 4 else 0) + (if p.w then 2 else 0) + (if p.x then 1 else 0)
  }

  /** `st_mode & 0o777`. */
  function Octal(mode: Mode): nat {
    64 * PermBits(mode.owner) + 8 * PermBits(mode.group) + PermBits(mode.other)
  }

  /** The modes set are 0o444, 0o555 and 0o644, in decimal 292, 365 and 420; a file is read-only
      when nobody may write it, and executable when somebody may execute it. */
  lemma ModesAre(mode: Mode)
    ensures Octal(ReadOnlyMode(false)) == 292 && Octal(ReadOnlyMode(true)) == 365 && Octal(MODE_644) == 420
    ensures mode.ReadOnly() <==> forall user :: !MayWrite(mode, user)
    ensures mode.Executable() <==> exists user :: MayExecute(mode, user)
    ensures forall user :: MayRead(ReadOnlyMode(mode.Executable()), user) && MayRead(MODE_644, user)
  {
    assert mode.owner.w == MayWrite(mode, Owner) && mode.owner.x == MayExecute(mode, Owner);
    assert mode.group.w == MayWrite(mode, Group) && mode.group.x == MayExecute(mode, Group);
    assert mode.other.w == MayWrite(mode, Other) && mode.other.x == MayExecute(mode, Other);
  }
}
