/**
  Importing a skill: the new one is unpacked beside the old one, the old one is backed up and moved away, the new
  one is moved into its place, and on failure the old one is moved back. Every file operation may fail; one that
  fails half-way leaves whatever it had done.
 */
module SkillImport {
  import opened Text
  import Decimal

  type Name = string

  /** What may lie at a path; links and special files are never followed. */
  datatype Node = File(data: string) | Folder(entries: seq<Entry>) | Link | Special

  datatype Entry = Entry(name: Name, node: Node)

  // ----- what a backup copies ------------------------------------------------------------------------------

  /** The copy a backup makes: folders and regular files. */
  function CopyOf(n: Node): Option<Node>
    decreases n
  {
    match n
    case File(_) => Some(n)
    case Folder(entries) => Some(Folder(CopyAll(entries)))
    case _ => None
  }

  function CopyAll(es: seq<Entry>): seq<Entry>
    decreases es
  {
    if es == [] then []
    else
      (match CopyOf(es[0].node)
       case None => []
       case Some(c) => [Entry(es[0].name, c)]) + CopyAll(es[1..])
  }

  /** Every regular file in a tree: its path and what is in it, in the order of the tree. */
  function FilesIn(n: Node, path: seq<Name>): seq<(seq<Name>, string)>
    decreases n
  {
    match n
    case File(data) => [(path, data)]
    case Folder(entries) => FilesOf(entries, path)
    case _ => []
  }

  function FilesOf(es: seq<Entry>, path: seq<Name>): seq<(seq<Name>, string)>
    decreases es
  {
    if es == [] then [] else FilesIn(es[0].node, path + [es[0].name]) + FilesOf(es[1..], path)
  }

  /** A backup holds every regular file of the tree, at its path and with its contents. */
  lemma {:induction false} CopyKeepsFiles(n: Node, path: seq<Name>)
    ensures CopyOf(n).Some? ==> FilesIn(CopyOf(n).value, path) == FilesIn(n, path)
    ensures CopyOf(n).None? ==> FilesIn(n, path) == []
    decreases n
  {
    match n
    case Folder(entries) => CopyAllKeepsFiles(entries, path);
    case _ =>
  }

  lemma {:induction false} CopyAllKeepsFiles(es: seq<Entry>, path: seq<Name>)
    ensures FilesOf(CopyAll(es), path) == FilesOf(es, path)
    decreases es
  {
    if es != [] {
      CopyKeepsFiles(es[0].node, path + [es[0].name]);
      CopyAllKeepsFiles(es[1..], path);
      match CopyOf(es[0].node)
      case None => assert CopyAll(es) == CopyAll(es[1..]);
      case Some(c) => assert CopyAll(es)[1..] == CopyAll(es[1..]);
    }
  }

  // ----- the disk ------------------------------------------------------------------------------------------

  /** The operations whose failure decides how an import ends. */
  datatype Op = Stat | MakeRoot | MakeStage | Extract | BackUp | MoveAway | Place | Rollback | CleanUp

  type Saved = map<Name, Node>

  const REPLACED: Name := ".replaced"

  /**
    The folder the skill goes into, the working folders beside it, and the backup folders with what each holds.
    `failed` is history: the operations of the current import that failed.
   */
  class Disk {
    var skills: map<Name, Node>
    var stages: map<Name, map<Name, Node>>
    var backups: map<Name, Saved>
    ghost var failed: set<Op>

    constructor (present: map<Name, Node>, kept: map<Name, Saved>)
      ensures skills == present && stages == map[] && backups == kept && failed == {}
    {
      skills, stages, backups, failed := present, map[], kept, {};
    }

    /** Does anything lie at the target? A stat that fails says no. */
    method Lstat(name: Name) returns (found: Option<Node>)
      modifies this`failed
      ensures found.Some? ==> name in skills && found.value == skills[name] && failed == old(failed)
      ensures found.None? && name in skills ==> failed == old(failed) + {Stat}
      ensures name !in skills ==> failed == old(failed)
    {
      if name !in skills { return None; }
      if * {
        failed := failed + {Stat};
        return None;
      }
      found := Some(skills[name]);
    }

    /** An operation that only succeeds or fails. */
    method Try(op: Op) returns (ok: bool)
      modifies this`failed
      ensures failed == old(failed) + if ok then {} else {op}
    {
      ok := *;
      if !ok { failed := failed + {op}; }
    }

    method MkdirTemp() returns (stage: Option<Name>)
      modifies this`stages, this`failed
      ensures stage.None? ==> stages == old(stages) && failed == old(failed) + {MakeStage}
      ensures stage.Some? ==>
        stage.value !in old(stages) && stages == old(stages)[stage.value := map[]] && failed == old(failed)
    {
      var name: Name := *;
      if name in stages {
        failed := failed + {MakeStage};
        return None;
      }
      stages := stages[name := map[]];
      stage := Some(name);
    }

    /** Unpacking fills the working folder, or leaves anything in it. */
    method ExtractSkill(stage: Name, name: Name, skill: Node) returns (ok: bool)
      requires stage in stages
      modifies this`stages, this`failed
      ensures failed == old(failed) + if ok then {} else {Extract}
      ensures ok ==> stages == old(stages)[stage := map[name := skill]]
      ensures stages.Keys == old(stages).Keys && forall s :: s in stages && s != stage ==> stages[s] == old(stages)[s]
    {
      ok := *;
      var junk: map<Name, Node> := *;
      stages := stages[stage := if ok then map[name := skill] else junk];
      if !ok { failed := failed + {Extract}; }
    }

    /** Moves what lies at the target into the working folder. */
    method MoveAway(name: Name, stage: Name) returns (ok: bool)
      requires stage in stages
      modifies this`skills, this`stages, this`failed
      ensures failed == old(failed) + if ok then {} else {Op.MoveAway}
      ensures ok ==> name in old(skills) && REPLACED !in old(stages)[stage]
      ensures ok ==> skills == old(skills) - {name}
      ensures ok ==> stages == old(stages)[stage := old(stages)[stage][REPLACED := old(skills)[name]]]
      ensures !ok ==> skills == old(skills) && stages == old(stages)
    {
      ok := *;
      if name !in skills || REPLACED in stages[stage] { ok := false; }
      if ok {
        stages := stages[stage := stages[stage][REPLACED := skills[name]]];
        skills := skills - {name};
      } else {
        failed := failed + {Op.MoveAway};
      }
    }

    /** Moves an entry of the working folder to the target; never onto something. */
    method MoveIn(op: Op, stage: Name, entry: Name, name: Name) returns (ok: bool)
      requires stage in stages
      modifies this`skills, this`stages, this`failed
      ensures failed == old(failed) + if ok then {} else {op}
      ensures ok ==> name !in old(skills) && entry in old(stages)[stage]
      ensures ok ==> skills == old(skills)[name := old(stages)[stage][entry]]
      ensures ok ==> stages == old(stages)[stage := old(stages)[stage] - {entry}]
      ensures !ok ==> skills == old(skills) && stages == old(stages)
    {
      ok := *;
      if name in skills || entry !in stages[stage] { ok := false; }
      if ok {
        skills := skills[name := stages[stage][entry]];
        stages := stages[stage := stages[stage] - {entry}];
      } else {
        failed := failed + {op};
      }
    }

    /** Removes the working folder, or leaves anything in it. */
    method RemoveAll(stage: Name)
      modifies this`stages, this`failed
      ensures CleanUp !in failed ==> stages == old(stages) - {stage}
      ensures failed == old(failed) || failed == old(failed) + {CleanUp}
      ensures stages - {stage} == old(stages) - {stage}
    {
      if * {
        stages := stages - {stage};
      } else {
        var left: map<Name, Node> := *;
        if stage in stages { stages := stages[stage := left]; }
        failed := failed + {CleanUp};
      }
    }
  }

  // ----- backups -------------------------------------------------------------------------------------------

  /** Everything one set of backups holds is in the other. */
  ghost predicate Keeps(before: map<Name, Saved>, after: map<Name, Saved>) {
    forall d :: d in before ==>
      d in after && forall r :: r in before[d] ==> r in after[d] && after[d][r] == before[d][r]
  }

  /** A backup folder holds the copy of a tree. */
  ghost predicate Holds(backups: map<Name, Saved>, dir: Option<Name>, rel: Name, n: Node) {
    dir.Some? && dir.value in backups &&
    (CopyOf(n).Some? ==> rel in backups[dir.value] && backups[dir.value][rel] == CopyOf(n).value)
  }

  const MAX_BACKUP_NAMES: nat := 100

  /** The backup folder of one import; it is made when the first thing is saved. */
  class Backup {
    const disk: Disk
    const stamp: Name
    var dir: Option<Name>

    ghost predicate Valid()
      reads this, disk
    {
      dir.Some? ==> dir.value in disk.backups
    }

    constructor (d: Disk, time: Name)
      ensures Valid() && disk == d && stamp == time && dir == None
    {
      disk, stamp, dir := d, time, None;
    }

    /** A folder with a name nobody has, among the first hundred. */
    method Ensure() returns (ok: bool)
      requires Valid()
      modifies this, disk`backups
      ensures Valid() && (ok ==> dir.Some?) &&
        (old(dir).Some? ==> ok && dir == old(dir) && disk.backups == old(disk.backups))
      ensures old(dir).None? && ok ==>
        dir.value !in old(disk.backups) && disk.backups == old(disk.backups)[dir.value := map[]]
      ensures !ok ==> dir == old(dir) && disk.backups == old(disk.backups)
    {
      if dir.Some? { return true; }
      for i := 1 to MAX_BACKUP_NAMES + 1
        invariant dir.None? && disk.backups == old(disk.backups)
      {
        var name := if i > 1 then stamp + "-" + Decimal.Digits(i) else stamp;
        if name !in disk.backups {
          var made := *;
          if !made { return false; }
          disk.backups := disk.backups[name := map[]];
          dir := Some(name);
          return true;
        }
      }
      ok := false;
    }

    /** Copies a tree; what was saved before is never written over. */
    method Save(rel: Name, n: Node) returns (ok: bool)
      requires Valid()
      modifies this, disk`backups
      ensures Valid() && Keeps(old(disk.backups), disk.backups) && (old(dir).Some? ==> dir == old(dir))
      ensures ok ==> Holds(disk.backups, dir, rel, n)
    {
      ok := Ensure();
      if !ok { return; }
      var saved := disk.backups[dir.value];
      if rel in saved { return false; }
      ok := *;
      if ok {
        if CopyOf(n).Some? { disk.backups := disk.backups[dir.value := saved[rel := CopyOf(n).value]]; }
      } else {
        var part: Node := *;
        disk.backups := disk.backups[dir.value := saved[rel := part]];
      }
    }
  }

  // ----- the import ----------------------------------------------------------------------------------------

  datatype Refusal = NoProject | LinkOnPath | TargetIsLink | NoFolder | NoStage | BadPack | NoBackup | InUse | NotPlaced

  datatype Result = Applied | Refused(why: Refusal)

  /** The old skill out, the new one in, and back again when that fails. */
  method Swap(disk: Disk, stage: Name, name: Name, skill: Node, was: Node) returns (r: Result)
    requires stage in disk.stages && disk.stages[stage] == map[name := skill] && name in disk.skills &&
      disk.skills[name] == was
    requires Place !in disk.failed && Rollback !in disk.failed
    modifies disk`skills, disk`stages, disk`failed
    ensures disk.stages - {stage} == old(disk.stages) - {stage}
    ensures r.Applied? ==> disk.skills == old(disk.skills)[name := skill] && Rollback !in disk.failed
    ensures r.Refused? ==>
      disk.skills == if Place in disk.failed && Rollback in disk.failed then old(disk.skills) - {name}
        else old(disk.skills)
    ensures Rollback in disk.failed ==> Place in disk.failed
    ensures r.Applied? ==> disk.failed == old(disk.failed)
    ensures r.Refused? ==> Op.MoveAway in disk.failed || Place in disk.failed
  {
    var away := disk.MoveAway(name, stage);
    if !away { return Refused(InUse); }
    var placed := disk.MoveIn(Place, stage, name, name);
    if placed { return Applied; }
    var back := disk.MoveIn(Rollback, stage, REPLACED, name);
    r := Refused(NotPlaced);
  }

  /** After the working folder is there: unpack, back up, replace. */
  method Replace(bk: Backup, disk: Disk, stage: Name, name: Name, skill: Node, rel: Name, existing: Option<Node>)
    returns (r: Result)
    requires bk.Valid() && bk.disk == disk && stage in disk.stages && Place !in disk.failed && Rollback !in disk.failed
    requires existing.Some? ==> name in disk.skills && existing.value == disk.skills[name]
    modifies bk, disk
    ensures bk.Valid() && Keeps(old(disk.backups), disk.backups)
    ensures disk.stages - {stage} == old(disk.stages) - {stage}
    ensures r.Applied? ==>
      disk.skills == old(disk.skills)[name := skill] && (name in old(disk.skills) ==> existing.Some?)
    ensures r.Applied? && existing.Some? ==> Holds(disk.backups, bk.dir, rel, existing.value)
    ensures r.Refused? ==>
      if existing.Some? && Place in disk.failed && Rollback in disk.failed
      then disk.skills == old(disk.skills) - {name} && Holds(disk.backups, bk.dir, rel, existing.value)
      else disk.skills == old(disk.skills)
    ensures Rollback in disk.failed ==> existing.Some? && Place in disk.failed && r.Refused?
    ensures r.Applied? ==> disk.failed == old(disk.failed)
    ensures r.Refused? ==> exists op :: op in disk.failed && op != CleanUp
  {
    var extracted := disk.ExtractSkill(stage, name, skill);
    if !extracted { return Refused(BadPack); }
    if existing.Some? {
      var saved := bk.Save(rel, existing.value);
      if !saved {
        disk.failed := disk.failed + {BackUp};
        return Refused(NoBackup);
      }
      r := Swap(disk, stage, name, skill, existing.value);
      return;
    }
    var placed := disk.MoveIn(Place, stage, name, name);
    r := if placed then Applied else Refused(NotPlaced);
  }

  /**
    The import is made exactly when there is a project, no link is on the path or at the target, and no operation
    fails but the cleaning up. However the operations fail: either the new skill is at the target and an old one is
    in the backup, or the import is refused and the skills are as they were, except when placing the new skill and
    moving the old one back both fail; then the old one is in the backup and nowhere else. Nothing saved before is
    lost, and nothing else is touched.
   */
  method PackImportSkill(bk: Backup, disk: Disk, hasProject: bool, linkOnPath: bool, name: Name, skill: Node,
        rel: Name)
    returns (r: Result)
    requires bk.Valid() && bk.disk == disk
    modifies bk, disk
    ensures bk.Valid() && Keeps(old(disk.backups), disk.backups)
    ensures r.Applied? ==> disk.skills == old(disk.skills)[name := skill]
    ensures r.Applied? && name in old(disk.skills) ==> Holds(disk.backups, bk.dir, rel, old(disk.skills)[name])
    ensures r.Refused? && name in disk.skills ==> disk.skills == old(disk.skills)
    ensures r.Refused? && name !in old(disk.skills) ==> disk.skills == old(disk.skills)
    ensures r.Refused? && name in old(disk.skills) && name !in disk.skills ==>
      disk.skills == old(disk.skills) - {name} && Holds(disk.backups, bk.dir, rel, old(disk.skills)[name])
    ensures name in old(disk.skills) && name !in disk.skills <==> Place in disk.failed && Rollback in disk.failed
    ensures r.Applied? ==> hasProject && !linkOnPath && disk.failed <= {CleanUp}
    ensures r.Applied? ==> name in old(disk.skills) ==> !old(disk.skills)[name].Link?
    ensures r.Refused? && hasProject && !linkOnPath && disk.failed <= {CleanUp} ==>
      name in old(disk.skills) && old(disk.skills)[name].Link?
    ensures CleanUp !in disk.failed ==> disk.stages == old(disk.stages)
    ensures forall s :: s in old(disk.stages) ==> s in disk.stages && disk.stages[s] == old(disk.stages)[s]
  {
    disk.failed := {};
    if !hasProject { return Refused(NoProject); }
    if linkOnPath { return Refused(LinkOnPath); }
    var existing := disk.Lstat(name);
    if existing.Some? && existing.value.Link? { return Refused(TargetIsLink); }
    var made := disk.Try(MakeRoot);
    if !made { return Refused(NoFolder); }
    var stage := disk.MkdirTemp();
    if stage.None? { return Refused(NoStage); }
    r := Replace(bk, disk, stage.value, name, skill, rel, existing);
    disk.RemoveAll(stage.value);
    StagesRestored(old(disk.stages), stage.value, disk.stages);
  }

  lemma {:induction false} StagesRestored(before: map<Name, map<Name, Node>>, stage: Name, after: map<Name, map<Name,
        Node>>)
    requires stage !in before && after - {stage} == before[stage := map[]] - {stage}
    ensures after - {stage} == before
    ensures forall s :: s in before ==> s in after && after[s] == before[s]
  {
    assert before[stage := map[]] - {stage} == before;
    forall s | s in before ensures s in after && after[s] == before[s] { assert s in after - {stage}; }
  }
}
