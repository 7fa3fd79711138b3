/** A concrete tree for the name lookup of callable-extractor: the `File`
    root the parser returns, whose `Program` holds a class `SomeClass` with a
    method `f1` on line 2, followed by a free function `f1` on line 4 (the
    class body node between the class and its method is left out; it changes
    no derived name or owner). */
module Examples {
  import opened Utils
  import opened Extractor

  function MethodF1(): Node
  {
    Node(ClassMethod, Some(2), None, Some("f1"), false, false, Some("public"), [])
  }

  function SomeClass(): Node
  {
    Node(ClassDeclaration, Some(1), Some("SomeClass"), None, false, false, None, [MethodF1()])
  }

  function FunctionF1(): Node
  {
    Node(FunctionDeclaration, Some(4), Some("f1"), None, false, false, None, [])
  }

  function Program(): Node
  {
    Node("Program", Some(1), None, None, false, false, None, [SomeClass(), FunctionF1()])
  }

  /** The `File` node the parser returns; the traversal starts below it. */
  function File(): Node
  {
    Node("File", Some(1), None, None, false, false, None, [Program()])
  }

  function ProgramPath(): Path { Path(Program(), None) }
  function ClassPath(): Path { Path(SomeClass(), Some(ProgramPath())) }
  function MethodPath(): Path { Path(MethodF1(), Some(ClassPath())) }
  function FunctionPath(): Path { Path(FunctionF1(), Some(ProgramPath())) }

  /** The traversal of the file enters the program (with no parent path),
      the class, the method and the function, in that order. */
  lemma ExampleTraversal()
    ensures Traverse(File()) == [ProgramPath(), ClassPath(), MethodPath(), FunctionPath()]
  {
    assert Walk(MethodF1(), Some(ClassPath())) == [MethodPath()];
    assert WalkAll([MethodF1()], Some(ClassPath())) == [MethodPath()];
    assert Walk(SomeClass(), Some(ProgramPath())) == [ClassPath(), MethodPath()];
    assert WalkAll([FunctionF1()], Some(ProgramPath())) == [FunctionPath()];
    assert WalkAll([SomeClass(), FunctionF1()], Some(ProgramPath())) == [ClassPath(), MethodPath(), FunctionPath()];
    assert Walk(Program(), None) == [ProgramPath(), ClassPath(), MethodPath(), FunctionPath()];
  }

  /** The extractor keeps the method and the function, in that order. */
  lemma ExampleNodePaths()
    ensures Filter(Traverse(File()), Admitted(Some(CallableTypes))) == [MethodPath(), FunctionPath()]
  {
    var keep := Admitted(Some(CallableTypes));
    var pp, cp, mp, fp := ProgramPath(), ClassPath(), MethodPath(), FunctionPath();
    ExampleTraversal();
    assert !keep(pp) && !keep(cp) && keep(mp) && keep(fp);
    assert [pp, cp, mp, fp][..3] == [pp, cp, mp];
    assert [pp, cp, mp][..2] == [pp, cp];
    assert [pp, cp][..1] == [pp];
    assert [pp][..0] == [];
    assert Filter([pp], keep) == [];
    assert Filter([pp, cp], keep) == [];
    assert Filter([pp, cp, mp], keep) == [mp];
  }

  /** Both candidates derive the name `f1`; only the method has an owner. */
  lemma ExampleNames()
    ensures DerivedName(MethodPath()) == "f1" && DerivedName(FunctionPath()) == "f1"
    ensures GetOwnerName(MethodPath(), ClassDeclaration) == "SomeClass"
    ensures GetOwnerName(FunctionPath(), ClassDeclaration) == ""
  {
    assert GetParentNodeByType(ClassPath(), ClassDeclaration) == Some(SomeClass());
    assert GetParentNodeByType(ProgramPath(), ClassDeclaration) == None;
  }

  /** A lookup of `f1` without a class name returns the method: the owner is
      forced to `''` for every candidate, so the first candidate named `f1`
      wins whatever class encloses it. Naming the class leaves only the
      method. */
  lemma UnownedLookupCanReturnAMethod()
    ensures var paths := Filter(Traverse(File()), Admitted(Some(CallableTypes)));
      NameCandidates(paths, "f1", "") == [MethodPath(), FunctionPath()] &&
      NameCandidates(paths, "f1", "SomeClass") == [MethodPath()]
  {
    ExampleNodePaths();
    ExampleNames();
    var m, f := MethodPath(), FunctionPath();
    assert Named("f1", "")(m) && Named("f1", "")(f);
    assert Named("f1", "SomeClass")(m) && !Named("f1", "SomeClass")(f);
    assert [m, f][..1] == [m];
    assert [m][..0] == [];
    assert Filter([m], Named("f1", "")) == [m];
    assert Filter([m], Named("f1", "SomeClass")) == [m];
  }
}
