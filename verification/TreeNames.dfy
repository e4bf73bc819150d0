/** Names of files and the nodes they stand for, and the event sets asked for. */
module TreeNames {
  import opened Strings
  import opened Watchpoints
  import opened TriePaths

  /** indexbase: where the rest of name starts below root, or -1. */
  function IndexBase(root: string, name: string): int {
    if |name| >= |root| && name[..|root|] == root && (|name| == |root| || name[|root|] == '/')
    then if |root| + 1 > |name| then |name| else |root| + 1
    else -1
  }

  method IndexSep(s: string) returns (i: int)
    ensures -1 <= i < |s|
    ensures if i == -1 then '/' !in s else s[i] == '/' && '/' !in s[..i]
  {
    i := 0;
    while i < |s|
      invariant 0 <= i <= |s| && '/' !in s[..i]
    {
      if s[i] == '/' {
        return;
      }
      i := i + 1;
    }
    i := -1;
  }

  /** Following base names downwards. */
  function Extend(p: Path, bases: seq<string>): Path
    decreases bases
  {
    if bases == [] then p else Extend(Kid(p, bases[0]), bases[1..])
  }

  ghost predicate Bases(bases: seq<string>) {
    forall i :: 0 <= i < |bases| ==> Base(bases[i])
  }

  /** An absolute clean name, as cleanpath delivers it. */
  ghost predicate AbsoluteName(name: string) {
    name == "/" || (name != "" && name[0] == '/' && Bases(Split(name[1..], '/')))
  }

  /** The rest of such a name below p: proper base names, or nothing at all below the root. */
  ghost predicate RestOfName(p: Path, rest: string) {
    (rest == "" && p == Root) || Bases(Split(rest, '/'))
  }

  lemma {:induction false} NameOfExtend(p: Path, bases: seq<string>)
    requires bases != []
    ensures NameOf(Extend(p, bases)) == NameOf(p) + "/" + Join(bases, '/')
    decreases bases
  {
    var kid := Kid(p, bases[0]);
    if |bases| == 1 {
      assert bases[1..] == [];
    } else {
      NameOfExtend(kid, bases[1..]);
    }
  }

  /** The node WalkPath looks for; the directory of a file in "/" has an empty base name. */
  function DirPath(dir: string): Path {
    if dir == "" then Kid(Root, "") else Extend(Root, Split(dir[1..], '/'))
  }

  lemma NameOfDirPath(name: string)
    requires AbsoluteName(name)
    ensures NameOf(DirPath(name)) == name
  {
    NameOfExtend(Root, Split(name[1..], '/'));
    JoinSplit(name[1..], '/');
    assert name == "/" + name[1..];
  }

  lemma SplitFirst(p: Path, s: string, j: nat)
    requires j < |s| && s[j] == '/' && '/' !in s[..j]
    ensures RestOfName(p, s) ==> Base(s[..j]) && Bases(Split(s[j + 1..], '/'))
    ensures Extend(p, Split(s, '/')) == Extend(Kid(p, s[..j]), Split(s[j + 1..], '/'))
  {
    SplitAppend(s[..j], '/', s[j + 1..]);
    assert s == s[..j] + ['/'] + s[j + 1..];
    var all, rest := Split(s, '/'), Split(s[j + 1..], '/');
    assert all[0] == s[..j] && all[1..] == rest;
    assert forall i :: 0 <= i < |rest| ==> rest[i] == all[i + 1];
  }

  lemma SplitLast(p: Path, s: string)
    requires '/' !in s
    ensures RestOfName(p, s) ==> Tip(p, s)
    ensures Extend(p, Split(s, '/')) == Kid(p, s)
  {
    SplitPiece(s, '/');
    assert [s][1..] == [];
    assert Split(s, '/')[0] == s;
  }

  ghost function Joined(events: seq<Event>): Event {
    set e, b | e in events && b in e :: b
  }

  /** What a recursive watch asks of the tree's own channel. */
  ghost function RecursiveSet(eset: Event): Event {
    eset + RECURSIVE + OMIT + CREATE
  }

  const ALL_EVENTS: Event := {20, 21, 22, 23}

  /** joinevents */
  method JoinEvents(events: seq<Event>) returns (eset: Event)
    ensures eset == if events == [] then ALL_EVENTS else Joined(events)
  {
    if |events| == 0 {
      return ALL_EVENTS;
    }
    eset := {};
    for i := 0 to |events|
      invariant eset == Joined(events[..i])
    {
      assert events[..i + 1] == events[..i] + [events[i]];
      assert Joined(events[..i + 1]) == Joined(events[..i]) + events[i];
      eset := eset + events[i];
    }
    assert events[..|events|] == events;
  }
}
