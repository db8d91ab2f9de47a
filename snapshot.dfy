/** The part of a stat record (libuv's uv_statbuf_t, the platform's struct
    stat) that a polling watcher compares from one poll to the next, and the
    comparator statbuf_eq. */
module Snapshot {

  /** One stat record, cut down to the ten fields some comparator branch
      reads; fields no branch reads (atime, nlink, rdev, blksize, blocks) are
      not kept. The sub-second parts of the two timestamps are kept as opaque
      integers, next to the whole-second parts. */
  datatype Stat = Stat(
    dev: int, ino: int, mode: int, uid: int, gid: int, size: int,
    mtime: int, mtimeNsec: int, ctime: int, ctimeNsec: int)

  /** The zero-filled record passed as "current" when a stat fails. */
  const ZeroStat := Stat(0, 0, 0, 0, 0, 0, 0, 0, 0, 0)

  /** The build target; it decides which branch of the comparator is compiled. */
  datatype Platform = Linux | Apple | OtherUnix | Windows {
    /** Linux and macOS expose nanosecond timestamps, and the comparator uses them. */
    predicate HasNsec() { this == Linux || this == Apple }
  }

  /** The fields a platform's comparator looks at, as a reference definition:
      two records are equal for that platform exactly when these agree. */
  function Observed(p: Platform, s: Stat): seq<int>
  {
    if p == Windows then [s.mtime, s.size, s.mode]
    else if p.HasNsec() then [s.ctimeNsec, s.mtimeNsec] + Unix(s)
    else Unix(s)
  }

  /** The fields every Unix build compares, at whole-second resolution. */
  function Unix(s: Stat): seq<int>
  {
    [s.ctime, s.mtime, s.size, s.mode, s.uid, s.gid, s.ino, s.dev]
  }

  /** statbuf_eq: the early-return comparison of two stat records. */
  function StatbufEq(p: Platform, a: Stat, b: Stat): (r: bool)
    ensures r <==> Observed(p, a) == Observed(p, b)
  {
    if p == Windows then
      a.mtime == b.mtime && a.size == b.size && a.mode == b.mode
    else if p.HasNsec() && a.ctimeNsec != b.ctimeNsec then
      assert Observed(p, a)[0] != Observed(p, b)[0];
      false
    else if p.HasNsec() && a.mtimeNsec != b.mtimeNsec then
      assert Observed(p, a)[1] != Observed(p, b)[1];
      false
    else
      assert Observed(p, a) == Observed(p, b) <==> Unix(a) == Unix(b) by {
        if p.HasNsec() && Observed(p, a) == Observed(p, b) {
          assert Observed(p, a)[2..] == Unix(a) && Observed(p, b)[2..] == Unix(b);
        }
      }
      assert Unix(a) == Unix(b) ==>
        (Unix(a)[0] == Unix(b)[0] && Unix(a)[1] == Unix(b)[1] && Unix(a)[2] == Unix(b)[2]
         && Unix(a)[3] == Unix(b)[3] && Unix(a)[4] == Unix(b)[4] && Unix(a)[5] == Unix(b)[5]
         && Unix(a)[6] == Unix(b)[6] && Unix(a)[7] == Unix(b)[7]);
      a.ctime == b.ctime && a.mtime == b.mtime && a.size == b.size && a.mode == b.mode
      && a.uid == b.uid && a.gid == b.gid && a.ino == b.ino && a.dev == b.dev
  }

  /** On every platform the comparator is an equivalence relation. */
  lemma StatbufEqIsEquivalence(p: Platform, a: Stat, b: Stat, c: Stat)
    ensures StatbufEq(p, a, a)
    ensures StatbufEq(p, a, b) <==> StatbufEq(p, b, a)
    ensures StatbufEq(p, a, b) && StatbufEq(p, b, c) ==> StatbufEq(p, a, c)
  {
  }

  /** With nanosecond timestamps available, two records compare equal exactly
      when they agree on every modelled field: no change to a tracked field
      goes unnoticed. */
  lemma NsecComparatorIsEquality(p: Platform, a: Stat, b: Stat)
    requires p.HasNsec()
    ensures StatbufEq(p, a, b) <==> a == b
  {
  }

  /** Whatever the platform, records the comparator calls equal agree on
      modification time, size and mode. */
  lemma ComparatorSeesContentChanges(p: Platform, a: Stat, b: Stat)
    ensures StatbufEq(p, a, b) ==> a.mtime == b.mtime && a.size == b.size && a.mode == b.mode
  {
  }
}
