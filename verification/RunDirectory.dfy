/** Loading and appending run manifests, src/state_v3.rs: a directory of numbered files, read
    back as the one chain it holds. */
module RunDirectory {
  import opened RunManifests
  import opened Sorting
  import opened Widths
  import opened Wrappers

  /** A manifest file, by the revision in its name. */
  datatype File = File(revision: nat, manifest: Manifest)

  function FilesOf(chain: seq<Manifest>): seq<File> {
    seq(|chain|, i requires 0 <= i < |chain| => File(i + 1, chain[i]))
  }

  predicate RevisionLeq(a: File, b: File) {
    a.revision <= b.revision
  }

  /** File names are unique. */
  ghost predicate NamesDiffer(listing: seq<File>) {
    forall i, j :: 0 <= i < j < |listing| ==> listing[i].revision != listing[j].revision
  }

  /** A listing, in any order, holds a chain of this run. */
  ghost predicate Holds(c: Context, runId: string, listing: seq<File>, chain: seq<Manifest>) {
    && multiset(listing) == multiset(FilesOf(chain))
    && ValidChain(c, chain)
    && (forall i :: 0 <= i < |chain| ==> chain[i].payload.runId == runId)
  }

  lemma RevisionOrder(listing: seq<File>)
    ensures TotalPreorder(RevisionLeq)
    ensures NamesDiffer(listing) ==> NoTies(RevisionLeq, listing)
  {
  }

  lemma FilesAreSorted(chain: seq<Manifest>)
    ensures SortedBy(RevisionLeq, FilesOf(chain)) && NamesDiffer(FilesOf(chain))
  {
  }

  /** Sorting a listing that holds a chain puts the chain's files in order. */
  lemma SortFindsChain(c: Context, runId: string, listing: seq<File>, chain: seq<Manifest>)
    requires NamesDiffer(listing) && Holds(c, runId, listing, chain)
    ensures Sort(RevisionLeq, listing) == FilesOf(chain)
  {
    hide Sort, ValidChain;
    RevisionOrder(listing);
    RevisionOrder(FilesOf(chain));
    FilesAreSorted(chain);
    SortSorts(RevisionLeq, listing);
    SortedIsUnique(RevisionLeq, FilesOf(chain), Sort(RevisionLeq, listing));
  }

  /** What the loader has read of the sorted files. */
  ghost predicate Read(c: Context, runId: string, ordered: seq<File>, chain: seq<Manifest>) {
    && ordered == FilesOf(chain)
    && ValidChain(c, chain)
    && (forall i :: 0 <= i < |chain| ==> chain[i].payload.runId == runId)
  }

  /** One more file continues the chain exactly when it passes the loader's checks. */
  lemma ReadOneMore(c: Context, runId: string, ordered: seq<File>, n: nat, chain: seq<Manifest>)
    requires n < |ordered| && Read(c, runId, ordered[..n], chain)
    ensures |chain| == n
    ensures Read(c, runId, ordered[..n + 1], chain + [ordered[n].manifest]) <==>
      && ordered[n].revision == n + 1
      && ValidManifest(c, ordered[n].manifest)
      && ordered[n].manifest.payload.runId == runId
      && ordered[n].manifest.payload.revision == ordered[n].revision
      && (n > 0 ==> Follows(chain[n - 1], ordered[n].manifest))
  {
    hide ValidManifest, Follows, ValidChain;
    assert |ordered[..n]| == n;
    var m := ordered[n].manifest;
    ChainOneMore(c, chain, m);
    var longer := chain + [m];
    assert ordered[..n + 1] == ordered[..n] + [ordered[n]];
    assert FilesOf(longer) == FilesOf(chain) + [File(n + 1, m)];
    assert longer[n] == m;
    if Read(c, runId, ordered[..n + 1], longer) {
      assert ordered[..n + 1][n] == File(n + 1, m);
      LastIsNumbered(c, longer);
    }
  }

  lemma LastIsNumbered(c: Context, chain: seq<Manifest>)
    requires ValidChain(c, chain) && chain != []
    ensures ValidManifest(c, chain[|chain| - 1]) && chain[|chain| - 1].payload.revision == |chain|
    ensures |chain| > 1 ==> Follows(chain[|chain| - 2], chain[|chain| - 1])
  {
    hide ValidManifest, Follows;
  }

  /** If the files hold a chain at all, what is read so far is its beginning, and the next
      file continues it. */
  lemma ReadIsPrefix(c: Context, runId: string, ordered: seq<File>, n: nat, chain: seq<Manifest>,
                     whole: seq<Manifest>)
    requires n < |ordered| && Read(c, runId, ordered[..n], chain) && Read(c, runId, ordered, whole)
    ensures Read(c, runId, ordered[..n + 1], chain + [ordered[n].manifest])
  {
    hide ValidManifest, Follows;
    assert |FilesOf(chain)| == n && |FilesOf(whole)| == |ordered|;
    forall i | 0 <= i < n ensures chain[i] == whole[i] {
      assert ordered[..n][i] == ordered[i];
      assert FilesOf(chain)[i] == FilesOf(whole)[i];
    }
    assert ordered[n] == FilesOf(whole)[n];
    assert chain + [ordered[n].manifest] == whole[..n + 1];
    ChainPrefix(c, whole, n + 1);
    assert ordered[..n + 1] == FilesOf(whole[..n + 1]);
  }

  /** The chain that a listing holds, if it holds one. */
  ghost function HeldChain(c: Context, runId: string, listing: seq<File>): (r: Option<seq<Manifest>>)
    requires NamesDiffer(listing)
    ensures r.Some? ==> Read(c, runId, Sort(RevisionLeq, listing), r.value)
    ensures r.None? ==> forall chain :: !Holds(c, runId, listing, chain)
  {
    hide Sort, ValidChain;
    assert forall chain :: Holds(c, runId, listing, chain) ==> Read(c, runId, Sort(RevisionLeq, listing), chain) by {
      forall chain | Holds(c, runId, listing, chain) ensures Read(c, runId, Sort(RevisionLeq, listing), chain) {
        SortFindsChain(c, runId, listing, chain);
      }
    }
    if chain :| Read(c, runId, Sort(RevisionLeq, listing), chain) then Some(chain) else None
  }

  lemma NothingRead(c: Context, runId: string, ordered: seq<File>)
    ensures Read(c, runId, ordered[..0], [])
  {
    assert ordered[..0] == FilesOf([]);
  }

  lemma ReadHolds(c: Context, runId: string, listing: seq<File>, chain: seq<Manifest>)
    requires NamesDiffer(listing) && Read(c, runId, Sort(RevisionLeq, listing), chain)
    ensures Holds(c, runId, listing, chain)
  {
    hide Sort, ValidChain;
    RevisionOrder(listing);
    SortSorts(RevisionLeq, listing);
  }

  lemma ReadIsValid(c: Context, runId: string, ordered: seq<File>, chain: seq<Manifest>)
    requires Read(c, runId, ordered, chain)
    ensures |chain| == |ordered| && ValidChain(c, chain)
    ensures forall i :: 0 <= i < |chain| ==> ValidManifest(c, chain[i])
  {
    hide ValidManifest, Follows;
    assert |FilesOf(chain)| == |chain|;
  }

  /** A listing holds at most one chain. */
  lemma HeldOnce(c: Context, runId: string, listing: seq<File>, chain: seq<Manifest>, other: seq<Manifest>)
    requires NamesDiffer(listing) && Holds(c, runId, listing, chain) && Holds(c, runId, listing, other)
    ensures chain == other
  {
    hide Sort, ValidChain;
    SortFindsChain(c, runId, listing, chain);
    SortFindsChain(c, runId, listing, other);
    assert |FilesOf(chain)| == |chain| && |FilesOf(other)| == |other|;
    forall i | 0 <= i < |chain| ensures chain[i] == other[i] {
      assert FilesOf(chain)[i] == FilesOf(other)[i];
    }
  }

  lemma ExtensionNeeds(c: Context, chain: seq<Manifest>, m: Manifest)
    requires ValidChain(c, chain + [m])
    ensures ValidManifest(c, m)
    ensures chain == [] ==> m.payload.revision == 1 && m.payload.previous.None?
    ensures chain != [] ==> Follows(chain[|chain| - 1], m)
  {
    hide Follows, ValidStages, ValidOutputs;
    assert (chain + [m])[|chain|] == m;
    if chain != [] {
      assert (chain + [m])[|chain| - 1] == chain[|chain| - 1];
    }
  }

  lemma HeldIsValid(c: Context, runId: string, listing: seq<File>, chain: seq<Manifest>)
    requires Holds(c, runId, listing, chain)
    ensures ValidChain(c, chain)
    ensures forall i :: 0 <= i < |chain| ==> ValidManifest(c, chain[i])
  {
    hide ValidManifest, Follows;
  }

  /** No chain that the listing holds goes on with this manifest. */
  ghost predicate NoneContinues(c: Context, runId: string, listing: seq<File>, m: Manifest) {
    forall chain :: Holds(c, runId, listing, chain) ==> !(ValidChain(c, chain + [m]) && m.payload.runId == runId)
  }

  lemma CannotContinue(c: Context, runId: string, listing: seq<File>, m: Manifest, chain: seq<Manifest>)
    requires NamesDiffer(listing) && Holds(c, runId, listing, chain)
    requires if chain == [] then m.payload.revision != 1 || m.payload.previous.Some?
             else !Follows(chain[|chain| - 1], m)
    ensures NoneContinues(c, runId, listing, m)
  {
    hide ValidManifest, Follows, ValidChain, Holds;
    forall other | Holds(c, runId, listing, other)
      ensures !(ValidChain(c, other + [m]) && m.payload.runId == runId)
    {
      HeldOnce(c, runId, listing, chain, other);
      if ValidChain(c, other + [m]) {
        ExtensionNeeds(c, other, m);
      }
    }
  }

  lemma InvalidCannotContinue(c: Context, runId: string, listing: seq<File>, m: Manifest)
    requires !ValidManifest(c, m) || m.payload.runId != runId
    ensures NoneContinues(c, runId, listing, m)
  {
    hide ValidManifest, Follows, ValidChain, Holds;
    forall chain | Holds(c, runId, listing, chain)
      ensures !(ValidChain(c, chain + [m]) && m.payload.runId == runId)
    {
      if ValidChain(c, chain + [m]) {
        ExtensionNeeds(c, chain, m);
      }
    }
  }

  /** The new revision's file name is new, and the directory holds the longer chain. */
  lemma AppendHolds(c: Context, runId: string, listing: seq<File>, chain: seq<Manifest>, m: Manifest)
    requires NamesDiffer(listing) && Holds(c, runId, listing, chain)
    requires ValidManifest(c, m) && m.payload.runId == runId
    requires if chain == [] then m.payload.revision == 1 else Follows(chain[|chain| - 1], m)
    ensures var longer := listing + [File(m.payload.revision, m)];
      NamesDiffer(longer) && Holds(c, runId, longer, chain + [m])
  {
    hide ValidManifest;
    ChainOneMore(c, chain, m);
    var file := File(m.payload.revision, m);
    assert m.payload.revision == |chain| + 1 by {
      if chain != [] {
        assert chain[|chain| - 1].payload.revision == |chain|;
      }
    }
    hide Follows, ValidChain;
    assert FilesOf(chain + [m]) == FilesOf(chain) + [file];
    SameElements(listing, FilesOf(chain));
    forall i | 0 <= i < |listing| ensures listing[i].revision != file.revision {
      assert listing[i] in FilesOf(chain);
    }
  }

  class RunDirectory {
    const c: Context
    const runId: string
    var listing: seq<File>

    constructor (c: Context, runId: string)
      ensures this.c == c && this.runId == runId && listing == [] && Valid()
    {
      this.c, this.runId, listing := c, runId, [];
    }

    ghost predicate Valid()
      reads this
    {
      NamesDiffer(listing)
    }

    /** `load_optional_run_manifest_chain`: whatever order the directory lists its files
        in, the chain they hold is found; and if they hold none, that is noticed. */
    method Load() returns (r: Option<seq<Manifest>>)
      requires Valid()
      ensures r.Some? ==> Holds(c, runId, listing, r.value)
      ensures r.None? ==> forall chain :: !Holds(c, runId, listing, chain)
    {
      hide Sort, ValidManifest, Follows, ValidChain, Read;
      var ordered := Sort(RevisionLeq, listing);
      ghost var whole := HeldChain(c, runId, listing);
      var chain: seq<Manifest> := [];
      NothingRead(c, runId, ordered);
      for position := 0 to |ordered|
        invariant Read(c, runId, ordered[..position], chain)
      {
        var file := ordered[position];
        ReadOneMore(c, runId, ordered, position, chain);
        if whole.Some? {
          ReadIsPrefix(c, runId, ordered, position, chain, whole.value);
        }
        if file.revision != position + 1 {
          return None;
        }
        if !ValidManifest(c, file.manifest) || file.manifest.payload.runId != runId {
          return None;
        }
        if file.manifest.payload.revision != file.revision {
          return None;
        }
        if position > 0 {
          ReadIsValid(c, runId, ordered[..position], chain);
          var follows := CheckSuccessor(c, chain[position - 1], file.manifest);
          if !follows {
            return None;
          }
        }
        chain := chain + [file.manifest];
      }
      assert ordered[..|ordered|] == ordered;
      ReadHolds(c, runId, listing, chain);
      return Some(chain);
    }

    /** `append_run_manifest`: the directory gains the revision exactly when the chain it
        holds, so extended, is valid; otherwise nothing changes. */
    method Append(m: Manifest) returns (ok: bool)
      requires Valid()
      modifies this
      ensures Valid()
      ensures ok ==> exists chain ::
        Holds(c, runId, old(listing), chain) && Holds(c, runId, listing, chain + [m])
      ensures !ok ==> NoneContinues(c, runId, old(listing), m)
      ensures listing == if ok then old(listing) + [File(m.payload.revision, m)] else old(listing)
    {
      hide ValidManifest, Follows, ValidChain, Holds;
      if !ValidManifest(c, m) || m.payload.runId != runId {
        InvalidCannotContinue(c, runId, listing, m);
        return false;
      }
      var existing := Load();
      if existing.None? {
        return false;
      }
      var chain := existing.value;
      if chain == [] {
        if m.payload.revision != 1 || m.payload.previous.Some? {
          CannotContinue(c, runId, listing, m, chain);
          return false;
        }
      } else {
        HeldIsValid(c, runId, listing, chain);
        var follows := CheckSuccessor(c, chain[|chain| - 1], m);
        if !follows {
          CannotContinue(c, runId, listing, m, chain);
          return false;
        }
      }
      AppendHolds(c, runId, listing, chain, m);
      listing := listing + [File(m.payload.revision, m)];
      return true;
    }
  }
}
