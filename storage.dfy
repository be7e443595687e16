/** `MemStorage`: the in-memory store of study guides, a counter that
    issues ids and a map from id to record that only ever grows. */
module Storage {
  import opened Common
  import opened Schema

  /** What the caller hands in; `pdfPath` may be missing. */
  datatype InsertStudyGuide = InsertStudyGuide(
    filename: string,
    summary: string,
    questions: seq<Section>,
    selectedQuestionTypes: seq<string>,
    pdfPath: Option<string>,
    createdAt: string)

  /** A stored record: the insert record with its id, and `null` (`None`) for
      a missing path. */
  datatype StudyGuide = StudyGuide(
    id: int,
    filename: string,
    summary: string,
    questions: seq<Section>,
    selectedQuestionTypes: seq<string>,
    pdfPath: Option<string>,
    createdAt: string)

  /** `insertStudyGuide.pdfPath || null`: a missing path and the empty path,
      which is falsy, are both stored as `null`. */
  function StoredPath(pdfPath: Option<string>): (r: Option<string>)
    ensures r.None? <==> pdfPath.None? || pdfPath.value == ""
    ensures r.Some? ==> r == pdfPath
  {
    match pdfPath
    case Some(p) => if p != "" then Some(p) else None
    case None => None
  }

  /** Record `id` made from `g`: every field of `g` carried over, the path
      as `StoredPath` gives it. */
  predicate Describes(s: StudyGuide, id: int, g: InsertStudyGuide)
  {
    && s.id == id
    && s.filename == g.filename
    && s.summary == g.summary
    && s.questions == g.questions
    && s.selectedQuestionTypes == g.selectedQuestionTypes
    && s.pdfPath == StoredPath(g.pdfPath)
    && s.createdAt == g.createdAt
  }

  class MemStorage {
    var studyGuides: map<int, StudyGuide>
    var currentId: int

    /** Ids are issued from 1 upwards: every stored id is below the next id
        to issue, and every record is stored under its own id. */
    ghost predicate Valid()
      reads this
    {
      && currentId >= 1
      && forall k :: k in studyGuides ==> 1 <= k < currentId && studyGuides[k].id == k
    }

    /** An empty store whose first id is 1. */
    constructor()
      ensures Valid()
      ensures studyGuides == map[] && currentId == 1
    {
      studyGuides := map[];
      currentId := 1;
    }

    /** Stores `g` under the next id, which was never used before, and
        returns the record; the counter moves up by one and every earlier
        entry stays as it was. */
    method CreateStudyGuide(g: InsertStudyGuide) returns (s: StudyGuide)
      requires Valid()
      modifies this
      ensures Valid()
      ensures s.id == old(currentId) && currentId == old(currentId) + 1
      ensures Describes(s, s.id, g)
      ensures s.id !in old(studyGuides)
      ensures studyGuides == old(studyGuides)[s.id := s]
    {
      var id := currentId;
      currentId := currentId + 1;
      s := StudyGuide(id, g.filename, g.summary, g.questions, g.selectedQuestionTypes, StoredPath(g.pdfPath), g.createdAt);
      studyGuides := studyGuides[id := s];
    }

    /** The record stored under `id`, or `undefined` (`None`) when there is
        none, which is the case for every id not yet issued. */
    method GetStudyGuide(id: int) returns (r: Option<StudyGuide>)
      ensures r.Some? <==> id in studyGuides
      ensures r.Some? ==> r.value == studyGuides[id]
      ensures Valid() && r.Some? ==> r.value.id == id
      ensures Valid() && (id < 1 || id >= currentId) ==> r.None?
    {
      if id in studyGuides {
        r := Some(studyGuides[id]);
      } else {
        r := None;
      }
    }
  }

  /** A fresh store hands out ids 1 and 2 to its first two records, and
      gives each back under its id with the fields it was created from. */
  method FreshStore(g1: InsertStudyGuide, g2: InsertStudyGuide) returns (first: StudyGuide, second: StudyGuide, found1: Option<StudyGuide>, found2: Option<StudyGuide>, missing: Option<StudyGuide>)
    ensures first.id == 1 && second.id == 2
    ensures Describes(first, 1, g1) && Describes(second, 2, g2)
    ensures found1 == Some(first) && found2 == Some(second)
    ensures missing.None?
  {
    var store := new MemStorage();
    first := store.CreateStudyGuide(g1);
    second := store.CreateStudyGuide(g2);
    found1 := store.GetStudyGuide(1);
    found2 := store.GetStudyGuide(2);
    missing := store.GetStudyGuide(3);
  }
}
