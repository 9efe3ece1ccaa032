/** Three overlaps of calls that wait, each with what it breaks. */
module Overlaps {
  import opened Wrappers
  import opened Utf16
  import opened OrderedMaps
  import opened MapSwaps
  import opened RepositoryState
  import opened RepositoryIntegrity
  import opened RepositorySnapshots
  import opened RepositoryRuns
  import opened DesignRevisions

  function FirstRevision(id: Id, p: Id): Revision { Revision(id, p, 1, None, id, NO_BODY) }

  /** Two empty projects. */
  const TWO_PROJECTS: Repo := EMPTY_REPO.(projects := OMap([P, Q], map[P := ProjectNamed(P), Q := ProjectNamed(Q)]))

  lemma TwoProjects()
    ensures Intact(TWO_PROJECTS) && Good(TWO_PROJECTS.revisions)
    ensures Latest(TWO_PROJECTS, P) == None && Latest(TWO_PROJECTS, Q) == None
  {
    assert (set k <- TWO_PROJECTS.projects.order) == {P, Q};
    assert TWO_PROJECTS.projects.data.Keys == {P, Q};
    assert TWO_PROJECTS.revisions.order == [];
  }

  lemma OneMore<K(!new), V(!new)>(m: OMap<K, V>, k: K, v: V)
    requires m == Empty<K, V>()
    ensures Set(m, k, v) == OMap([k], map[k := v]) && Room(m, k)
  {}

  /** An append is made, its project is deleted, and the revision is stored all the same: it has no project. */
  lemma DeletedBetween()
    ensures var r := FirstRevision(P, P);
            && StartAppend(TWO_PROJECTS, r, None) == Some(Appending(r, None, None))
            && var s := Finish(Delete(TWO_PROJECTS, P), Appending(r, None, None));
               r.id in s.revisions.data && P !in s.projects.data && !Intact(s)
  {
    TwoProjects();
    var r := FirstRevision(P, P);
    var s := Delete(TWO_PROJECTS, P);
    assert P !in s.projects.data;
    DeletedRevisions(TWO_PROJECTS, P);
    hide Intact, Latest, Delete;
    Orphan(Finish(s, Appending(r, None, None)), r);
  }

  lemma DeletedRevisions(s: Repo, p: Id)
    requires p in s.projects.data && s.revisions.data == map[]
    ensures Delete(s, p).revisions.data == map[] && p !in Delete(s, p).projects.data
  {}

  lemma Orphan(s: Repo, r: Revision)
    requires Stored(s.revisions, r.id) == Some(r) && r.projectId !in s.projects.data
    ensures !Intact(s)
  {
    hide Filed, FiledWithin, ThreadsOk, CommentsOk, ReactionsOk, ApprovalsOk, ReviewThreadsOk, RequestsOk,
      AnnotationsOk, StatesOk;
  }

  /** Two appends of one id to two projects are made, and then finish: the second takes the place of the first. */
  lemma SameIdTwice()
    ensures var a, b := FirstRevision(P, P), FirstRevision(P, Q);
            && StartAppend(TWO_PROJECTS, a, None) == Some(Appending(a, None, None))
            && StartAppend(TWO_PROJECTS, b, None) == Some(Appending(b, None, None))
            && var s := Finish(TWO_PROJECTS, Appending(a, None, None));
               && Stored(s.revisions, P) == Some(a)
               && Stored(Finish(s, Appending(b, None, None)).revisions, P) == Some(b)
               && !Clear(s, Appending(b, None, None))
  {
    TwoProjects();
    hide Intact, Latest;
    var a := FirstRevision(P, P);
    OneMore(TWO_PROJECTS.revisions, P, a);
  }

  function FirstCommit(id: Id): Commit { AppendOnly(Head(P, P, [], None), FirstRevision(id, P), None, None) }

  /** Two commits of a first revision are made, and then finish: both are stored, both with sequence 1. */
  lemma SequenceTwice()
    ensures var a, b := FirstCommit(P), FirstCommit(Q);
            && StartCommit(TWO_PROJECTS, a, true) == Some(Committing(a, true, None))
            && StartCommit(TWO_PROJECTS, b, true) == Some(Committing(b, true, None))
            && var s := Finish(TWO_PROJECTS, Committing(a, true, None));
               && var t := Finish(s, Committing(b, true, None));
                  && Holds(t, P, [a.revision, b.revision]) && !Numbered([a.revision, b.revision])
                  && Clear(s, Committing(b, true, None))
  {
    TwoProjects();
    hide Intact, Latest, Holds;
    var a, b := FirstCommit(P), FirstCommit(Q);
    CommitStores(TWO_PROJECTS, a);
    var s := Finish(TWO_PROJECTS, Committing(a, true, None));
    CommitStores(s, b);
    var t := Finish(s, Committing(b, true, None));
    assert Holds(TWO_PROJECTS, P, []) by { NothingHeld(TWO_PROJECTS, P); }
    LineGrows(TWO_PROJECTS, s, P, [], a.revision);
    assert [] + [a.revision] == [a.revision];
    LineGrows(s, t, P, [a.revision], b.revision);
    assert [a.revision] + [b.revision] == [a.revision, b.revision];
    assert [a.revision, b.revision][1] == b.revision;
  }

  lemma NothingHeld(s: Repo, p: Id)
    requires s.revisions.data == map[]
    ensures Holds(s, p, [])
  {}

  /** Nothing refuses the commit of a first revision whose call found none. */
  lemma CommitStores(s: Repo, c: Commit)
    requires c.AppendOnly? && c == FirstCommit(c.revision.id) && P in s.projects.data && P !in s.states.data
    requires c.revision.id !in s.revisions.data && |s.revisions.data| < MAX_ITEMS
    ensures var f := Committing(c, true, None);
            && Written(s, f) == Some(c.revision) && Clear(s, f)
            && Finish(s, f) == s.(revisions := Set(s.revisions, c.revision.id, c.revision))
  {}
}
