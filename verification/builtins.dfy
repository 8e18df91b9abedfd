/** The fixed registry of host functions callable from expressions, searched linearly by
    exact name. */
module Builtins {
  import opened Wrappers

  datatype Builtin = Println | Print | Len | ReadNum | ReadStr | Panic

  /** The registry, in the order the interpreter searches it. */
  const Table: seq<(string, Builtin)> := [
    ("println", Println),
    ("print", Print),
    ("len", Len),
    ("readnum", ReadNum),
    ("readstr", ReadStr),
    ("panic", Panic)
  ]

  /** The name each builtin is called by in a program. */
  function NameOf(b: Builtin): string {
    match b
    case Println => "println"
    case Print => "print"
    case Len => "len"
    case ReadNum => "readnum"
    case ReadStr => "readstr"
    case Panic => "panic"
  }

  /** The first registry entry at or after `from` whose name equals `name`. */
  function ResolveFrom(name: string, from: nat): (r: Option<Builtin>)
    requires from <= |Table|
    ensures r.Some? ==> exists k :: from <= k < |Table| && Table[k] == (name, r.value)
    ensures r.None? ==> forall k :: from <= k < |Table| ==> Table[k].0 != name
    decreases |Table| - from
  {
    if from == |Table| then None
    else if Table[from].0 == name then Some(Table[from].1)
    else ResolveFrom(name, from + 1)
  }

  /** Call resolution: a name resolves exactly when it is some builtin's name. */
  function Resolve(name: string): (r: Option<Builtin>)
    ensures r.Some? ==> NameOf(r.value) == name
    ensures r.None? <==> forall b: Builtin :: NameOf(b) != name
  {
    TableListsEveryBuiltin();
    ResolveFrom(name, 0)
  }

  /** Each registry entry is filed under its builtin's name, and every builtin has one. */
  lemma TableListsEveryBuiltin()
    ensures forall k :: 0 <= k < |Table| ==> Table[k].0 == NameOf(Table[k].1)
    ensures forall b: Builtin :: (NameOf(b), b) in Table
  {
    forall b: Builtin
      ensures (NameOf(b), b) in Table
    {
      match b
      case Println => assert Table[0] == (NameOf(b), b);
      case Print => assert Table[1] == (NameOf(b), b);
      case Len => assert Table[2] == (NameOf(b), b);
      case ReadNum => assert Table[3] == (NameOf(b), b);
      case ReadStr => assert Table[4] == (NameOf(b), b);
      case Panic => assert Table[5] == (NameOf(b), b);
    }
  }

  /** Resolution inverts naming: every builtin is found under its own name. */
  lemma ResolveNameOf(b: Builtin)
    ensures Resolve(NameOf(b)) == Some(b)
  {
    var r := Resolve(NameOf(b));
    assert r.Some?;
    NameOfInjective(r.value, b);
  }

  lemma NameOfInjective(a: Builtin, b: Builtin)
    requires NameOf(a) == NameOf(b)
    ensures a == b
  {
  }

  /** `readstr` drops a single trailing newline from the line it read, and nothing else. */
  function StripNewline(line: string): (r: string)
    ensures |line| - 1 <= |r| <= |line| && r == line[..|r|]
    ensures |r| < |line| <==> line != [] && line[|line| - 1] == '\n'
  {
    if |line| > 0 && line[|line| - 1] == '\n' then line[..|line| - 1] else line
  }

  /** Stripping undoes appending one newline, and leaves a line without one alone. */
  lemma StripNewlineInverse(s: string)
    ensures StripNewline(s + "\n") == s
    ensures (s == [] || s[|s| - 1] != '\n') ==> StripNewline(s) == s
  {
    assert (s + "\n")[..|s|] == s;
  }
}
