/** Which work on the registry is accepted and exactly what it leaves behind, told from its inputs. */
module EngineDecisions {
  import opened Common
  import opened VersionResolution
  import opened EngineRegistry
  import DomainPolicy

  /** Sixty-four hexadecimal digits, in either case. */
  ghost predicate IsSha256Text(s: string) {
    |s| == 64 && forall i | 0 <= i < 64 :: DomainPolicy.LowerChar(s[i]) in LOWER_HEX
  }

  lemma DigestTextExactly(s: string)
    ensures IsHex64(s) <==> IsSha256Text(s)
  {
    if IsHex64(s) {
      forall i | 0 <= i < 64 ensures DomainPolicy.LowerChar(s[i]) in LOWER_HEX {
        assert s[i] in s;
        LowerHexExactly(DomainPolicy.LowerChar(s[i]));
      }
    }
    if IsSha256Text(s) {
      forall c | c in s ensures '0' <= c <= '9' || 'a' <= c <= 'f' || 'A' <= c <= 'F' {
        var i :| 0 <= i < |s| && s[i] == c;
        LowerHexExactly(DomainPolicy.LowerChar(c));
      }
    }
  }

  /** Bytes sent along are those declared, and could be stored. */
  predicate UploadFits(b: Build, declaredSize: nat, upload: Option<Upload>) {
    upload.Some? ==>
      && upload.value.hash == DomainPolicy.Lower(b.digest) && upload.value.stores
      && (declaredSize == 0 || declaredSize == upload.value.size)
  }

  /**
   A build is published exactly once for its version and plan, with features, a SHA-256 digest and bytes that fit
   it; it joins the rows unretired, and its bytes join the store.
   */
  lemma PublishedExactly(reg: Registry, b: Build, declaredSize: nat, upload: Option<Upload>)
    ensures var r := Publish(reg, b, declaredSize, upload);
            && (r.Ok? <==>
                && (forall x | x in reg.builds :: x.version != b.version || x.plan != b.plan)
                && b.supported != [] && IsSha256Text(b.digest) && UploadFits(b, declaredSize, upload))
            && (r.Ok? ==>
                  r.value == reg.(builds := reg.builds + [b.(retired := false)],
                                  stored := reg.stored + if upload.Some? then {DomainPolicy.Lower(b.digest)} else {}))
  {
    hide DomainPolicy.Lower, IsHex64, IsSha256Text;
    DigestTextExactly(b.digest);
  }

  /** Every published build has features and a SHA-256 digest. */
  ghost predicate Sound(reg: Registry) {
    forall b | b in reg.builds :: b.supported != [] && IsSha256Text(b.digest)
  }

  lemma NextKeepsSound(reg: Registry, step: Step)
    requires Sound(reg)
    ensures Sound(Next(reg, step))
  {
    hide IsSha256Text, IsComplete, FindBuild, RowsOf, PreviousDefault, IsHex64;
    match step
    case Publication(b, declaredSize, upload) => PublishedExactly(reg, b, declaredSize, upload);
    case Promotion(v, to) =>
      forall b | b in Promoted(reg.builds, v, to) ensures exists a | a in reg.builds :: SameArtifact(a, b) {
        var i :| 0 <= i < |reg.builds| && Promoted(reg.builds, v, to)[i] == b;
        assert SameArtifact(reg.builds[i], b);
      }
    case Retirement(v, notes) =>
      forall b | b in Retired(reg.builds, v, notes) ensures exists a | a in reg.builds :: SameArtifact(a, b) {
        var i :| 0 <= i < |reg.builds| && Retired(reg.builds, v, notes)[i] == b;
        assert SameArtifact(reg.builds[i], b);
      }
    case _ =>
  }

  /** From an empty registry, whatever is done, no build without features or with a malformed digest is ever there. */
  lemma {:induction false} BuildsAreSound(reg: Registry, steps: seq<Step>)
    requires Sound(reg)
    ensures Sound(Run(reg, steps))
    decreases |steps|
  {
    if steps != [] {
      NextKeepsSound(reg, steps[0]);
      hide Next, Sound;
      BuildsAreSound(Next(reg, steps[0]), steps[1..]);
    }
  }

  /** Bytes are put back exactly for a known build they are the bytes of, and it says whether they had been missing. */
  lemma RestoredExactly(reg: Registry, version: string, plan: string, hash: string)
    ensures var r, b := Restore(reg, version, plan, hash), FindBuild(reg.builds, version, plan);
            && (r == Err(UnknownBuild) <==> b.None?)
            && (r == Err(HashMismatch) <==> b.Some? && hash != DomainPolicy.Lower(b.value.digest))
            && (r.Ok? <==> b.Some? && hash == DomainPolicy.Lower(b.value.digest))
            && (r.Ok? ==> r.value == (reg.(stored := reg.stored + {hash}), hash !in reg.stored))
  {
    hide FindBuild, DomainPolicy.Lower;
    assert hash in reg.stored ==> reg.stored + {hash} == reg.stored;
  }

  /** Only a complete version is promoted: its rows change channel, and nothing else changes. */
  lemma PromotedExactly(reg: Registry, version: string, channel: Channel)
    ensures var r := Promote(reg, version, channel);
            && (r.Ok? <==> IsComplete(reg, version))
            && (r.Ok? ==>
                  && r.value == reg.(builds := r.value.builds) && |r.value.builds| == |reg.builds|
                  && forall i | 0 <= i < |reg.builds| ::
                       var was, now := reg.builds[i], r.value.builds[i];
                       now == if was.version == version then was.(channel := channel) else was)
  {
    hide IsComplete;
  }

  /** Only a known version is retired: its rows are marked, their notes replaced where notes are given. */
  lemma RetiredExactly(reg: Registry, version: string, notes: string)
    ensures var r := Retire(reg, version, notes);
            && (r.Ok? <==> exists b | b in reg.builds :: b.version == version)
            && (r.Ok? ==>
                  && r.value == reg.(builds := r.value.builds) && |r.value.builds| == |reg.builds|
                  && forall i | 0 <= i < |reg.builds| ::
                       var was, now := reg.builds[i], r.value.builds[i];
                       if was.version != version then now == was
                       else now == was.(retired := true, notes := now.notes)
                            && now.notes == if notes == "" then was.notes else notes)
  {
    var rows := RowsOf(reg.builds, version);
    assert rows != [] ==> rows[0] in rows;
  }

  /** Once a trial is halted it reaches nobody: whoever it reached is back on the global trial, if any, or defaults. */
  lemma HaltedTrialReachesNobody(reg: Registry, bucket: (string, string) -> nat, scope: Scope, channel: Channel,
                                 identity: string)
    ensures var after := Next(reg, CanaryHalt(scope));
            && after == reg.(canaries := after.canaries) && scope !in after.canaries
            && (forall other | other != scope :: other in after.canaries <==> other in reg.canaries)
            && (forall other | other in after.canaries :: after.canaries[other] == reg.canaries[other])
            && (scope == Global && ForChannel(channel) !in reg.canaries ==>
                  CanaryFor(after, bucket, channel, identity) == "")
  {
    hide InCanary;
  }

  /** What happens to the bytes of a digest: stored, lost, or put back for the build they belong to. */
  lemma BytesMoveExactly(reg: Registry, version: string, plan: string, hash: string)
    ensures Next(reg, BytesStored(hash)) == reg.(stored := reg.stored + {hash})
    ensures Next(reg, BytesLost(hash)) == reg.(stored := reg.stored - {hash})
    ensures var b := FindBuild(reg.builds, version, plan);
            Next(reg, Restoration(version, plan, hash)) ==
            if b.Some? && hash == DomainPolicy.Lower(b.value.digest) then reg.(stored := reg.stored + {hash}) else reg
  {
    hide FindBuild, DomainPolicy.Lower;
    RestoredExactly(reg, version, plan, hash);
  }
}
