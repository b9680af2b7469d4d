/** A worked `GET /tasks` request: one task per owner, filtered by a compact owner name. */
module QueryExamples {
  import opened Wrappers
  import opened Strings
  import opened Names
  import opened TaskSchema
  import opened Store
  import opened TaskQuery
  import NameExamples

  const Rani := ObjectId(1)
  const Omkar := ObjectId(2)

  const DesignTask := Task("Design", ObjectId(10), ObjectId(20), [Rani], 3.0, High, ToDo, [])
  const ReviewTask := Task("Review", ObjectId(10), ObjectId(20), [Omkar], 1.0, Low, ToDo, [])

  const Directory := Store(
    [UserDoc(Rani, "Rani Kawale", "rani@example.com"), UserDoc(Omkar, "Omkar", "omkar@example.com")],
    [], [], [DesignTask, ReviewTask])

  lemma OwnerNames()
    ensures NameList(Some("RaniKawale")) == ["Rani Kawale"]
  {
    SingleName("RaniKawale");
    NameExamples.DecompressCompactPersonName();
  }

  lemma OwnerFacet(q: Query)
    requires q == Query(None, Some("RaniKawale"), None, None, None)
    ensures forall id :: id in BuildFilter(q, Directory).owners.value <==> id == Rani
  {
    OwnerNames();
    assert Directory.users[0] in Directory.users;
  }

  lemma SelectFirstOfTwo(a: Task, b: Task, f: Filter)
    requires Matches(a, f) && !Matches(b, f)
    ensures Select([a, b], f) == [a]
  {
    assert [a, b][1..] == [b];
    assert [b][1..] == [];
  }

  /** `?owners=RaniKawale` lists only the task Rani Kawale owns. */
  lemma FilterByCompactOwnerName()
    ensures ListTasks(Directory, Query(None, Some("RaniKawale"), None, None, None)) == [DesignTask]
  {
    var q := Query(None, Some("RaniKawale"), None, None, None);
    OwnerFacet(q);
    var f := BuildFilter(q, Directory);
    assert Matches(DesignTask, f) by {
      assert DesignTask.owners[0] == Rani;
    }
    SelectFirstOfTwo(DesignTask, ReviewTask, f);
  }
}
