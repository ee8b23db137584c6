/**
  The PRD phase sequencer of `gen_next_prd.py`: which phase to generate next,
  given the names in the `prds` directory, the name of the file for a phase,
  and the append of the task status and the API detail design to the new PRD.
*/
module NextPrd {
  import opened Common
  import opened PyInt
  import opened Workspace

  const PhasePrefix := "prd_phase_"
  const PhaseSuffix := ".md"

  /** The phase number a directory entry names, if it names one: the name
      must start with "prd_phase_" and end with ".md", and what lies between
      must be accepted by Python's `int()`. */
  function PhaseOf(name: string): (r: Option<int>)
    ensures r.Some? ==> StartsWith(name, PhasePrefix) && EndsWith(name, PhaseSuffix)
    ensures !StartsWith(name, PhasePrefix) || !EndsWith(name, PhaseSuffix) ==> r.None?
  {
    if StartsWith(name, PhasePrefix) && EndsWith(name, PhaseSuffix) then
      ParseInt(RemoveSuffix(RemovePrefix(name, PhasePrefix), PhaseSuffix))
    else None
  }

  /** The phase numbers found in a directory listing, in listing order. */
  function PhaseNumbers(names: seq<string>): (nums: seq<int>)
    ensures |nums| <= |names|
  {
    if names == [] then []
    else
      var rest := PhaseNumbers(names[..|names| - 1]);
      match PhaseOf(names[|names| - 1])
      case Some(p) => rest + [p]
      case None => rest
  }

  lemma {:induction false} PhaseNumbersAppend(names: seq<string>, name: string)
    ensures PhaseNumbers(names + [name]) ==
              PhaseNumbers(names) + (if PhaseOf(name).Some? then [PhaseOf(name).value] else [])
  {
    assert (names + [name])[..|names|] == names;
  }

  /** `max(nums)`. */
  function Max(nums: seq<int>): (m: int)
    requires nums != []
    ensures m in nums
    ensures forall x | x in nums :: x <= m
  {
    if |nums| == 1 then nums[0]
    else
      var m' := Max(nums[1..]);
      assert forall x | x in nums[1..] :: x in nums;
      assert forall x | x in nums :: x == nums[0] || x in nums[1..];
      if nums[0] >= m' then nums[0] else m'
  }

  /** `sorted(set(range(lo, hi + 1)) - set(nums))`: the numbers from `lo` to
      `hi` that are not in `nums`, in increasing order. */
  function Missing(nums: seq<int>, lo: int, hi: int): (r: seq<int>)
    ensures forall k :: k in r <==> lo <= k <= hi && k !in nums
    ensures forall i, j | 0 <= i < j < |r| :: r[i] < r[j]
    decreases hi - lo
  {
    if lo > hi then []
    else
      var rest := Missing(nums, lo + 1, hi);
      assert forall j | 0 <= j < |rest| :: rest[j] in rest && lo < rest[j];
      if lo in nums then rest else [lo] + rest
  }

  /** Every number below the first missing one is present. */
  lemma {:induction false} MissingHeadIsLeast(nums: seq<int>, lo: int, hi: int)
    requires Missing(nums, lo, hi) != []
    ensures forall k | lo <= k < Missing(nums, lo, hi)[0] :: k in nums
    decreases hi - lo
  {
    if lo in nums {
      MissingHeadIsLeast(nums, lo + 1, hi);
    }
  }

  /** The gap-filling rule of `get_next_phase` once the names are parsed: 1
      when there is no phase, else the first number from 1 to the latest
      phase that is missing, else the latest phase plus one. */
  function NextPhaseOf(nums: seq<int>): int {
    if nums == [] then 1
    else
      var latest := Max(nums);
      var missing := Missing(nums, 1, latest);
      if missing != [] then missing[0] else latest + 1
  }

  /** The phase chosen is never one that already exists. */
  lemma NextPhaseIsNew(nums: seq<int>)
    ensures NextPhaseOf(nums) !in nums
  {
    if nums != [] {
      var latest := Max(nums);
      var missing := Missing(nums, 1, latest);
      if missing != [] {
        assert missing[0] in missing;
      }
    }
  }

  /** When every phase number is positive, the phase chosen is the least
      positive number not yet used. */
  lemma NextPhaseIsLeastUnused(nums: seq<int>)
    requires forall x | x in nums :: x >= 1
    ensures NextPhaseOf(nums) >= 1
    ensures NextPhaseOf(nums) !in nums
    ensures forall k | 1 <= k < NextPhaseOf(nums) :: k in nums
  {
    NextPhaseIsNew(nums);
    if nums != [] {
      var latest := Max(nums);
      var missing := Missing(nums, 1, latest);
      if missing != [] {
        MissingHeadIsLeast(nums, 1, latest);
      } else {
        forall k | 1 <= k < latest + 1
          ensures k in nums
        {
          assert k !in missing;
        }
      }
    }
  }

  /** A listing whose only phase numbers are zero or negative (possible, as
      `int()` accepts "-1" and "0") makes `get_next_phase` return a number
      that is not positive. */
  lemma NextPhaseOfNonPositive()
    ensures NextPhaseOf([-1]) == 0
    ensures NextPhaseOf([-3, -5]) == -2
  {
    assert Max([-1]) == -1;
    assert Missing([-1], 1, -1) == [];
    assert Max([-3, -5]) == -3 by { assert [-3, -5][1..] == [-5]; }
    assert Missing([-3, -5], 1, -3) == [];
  }

  /** An empty listing starts at phase 1. */
  lemma NextPhaseOfEmpty()
    ensures NextPhaseOf([]) == 1
  {
  }

  /** A gap is filled before the sequence grows. */
  lemma NextPhaseFillsGap()
    ensures NextPhaseOf([1, 2, 4]) == 3
  {
    var nums := [1, 2, 4];
    NextPhaseIsLeastUnused(nums);
    assert nums[0] == 1 && nums[1] == 2 && 3 !in nums;
  }

  /** Without a gap the phase after the latest is chosen, whatever the
      listing order. */
  lemma NextPhaseAfterLatest()
    ensures NextPhaseOf([3, 1, 2]) == 4
  {
    var nums := [3, 1, 2];
    NextPhaseIsLeastUnused(nums);
    assert nums[[1, 2][0]] == 1;
    assert Max(nums) == 3 by { assert nums[1..] == [1, 2]; assert [1, 2][1..] == [2]; }
    assert Missing(nums, 1, 3) == [] by {
      assert 1 in nums && 2 in nums && 3 in nums;
    }
  }

  /** `get_next_phase(directory)`. `listing` is `None` when the directory does
      not exist (`os.listdir` raises `FileNotFoundError`), else its entries. */
  method GetNextPhase(listing: Option<seq<string>>) returns (phase: int)
    ensures listing.None? ==> phase == 1
    ensures listing.Some? ==> phase == NextPhaseOf(PhaseNumbers(listing.value))
    ensures listing.Some? ==> phase !in PhaseNumbers(listing.value)
  {
    if listing.None? {
      return 1;
    }
    var files := listing.value;
    var phaseNumbers: seq<int> := [];
    for i := 0 to |files|
      invariant phaseNumbers == PhaseNumbers(files[..i])
    {
      var filename := files[i];
      assert files[..i + 1] == files[..i] + [filename];
      PhaseNumbersAppend(files[..i], filename);
      if StartsWith(filename, PhasePrefix) && EndsWith(filename, PhaseSuffix) {
        var phasePart := RemoveSuffix(RemovePrefix(filename, PhasePrefix), PhaseSuffix);
        var parsed := ParseInt(phasePart);
        if parsed.Some? {
          phaseNumbers := phaseNumbers + [parsed.value];
        }
      }
    }
    assert files[..|files|] == files;
    if phaseNumbers == [] {
      return 1;
    }
    var latest := Max(phaseNumbers);
    var missing := Missing(phaseNumbers, 1, latest);
    if missing != [] {
      phase := missing[0];
    } else {
      phase := latest + 1;
    }
    NextPhaseIsNew(phaseNumbers);
  }

  /** The name of the PRD file for a phase: `prd_phase_{phase}.md`. */
  function PhaseFileName(phase: int): string {
    PhasePrefix + IntToString(phase) + PhaseSuffix
  }

  /** `prd_file_path` for a documentation root. */
  function PrdFilePath(docsDir: string, phase: int): string {
    docsDir + "/prds/" + PhaseFileName(phase)
  }

  /** The name written for a phase is read back as that phase. */
  lemma PhaseOfFileName(phase: int)
    ensures PhaseOf(PhaseFileName(phase)) == Some(phase)
  {
    var digits := IntToString(phase);
    var name := PhaseFileName(phase);
    assert name[..|PhasePrefix|] == PhasePrefix;
    assert name[|name| - |PhaseSuffix|..] == PhaseSuffix;
    assert RemovePrefix(name, PhasePrefix) == digits + PhaseSuffix;
    assert RemoveSuffix(digits + PhaseSuffix, PhaseSuffix) == digits;
    ParseIntToString(phase);
  }

  /** Once the PRD for the chosen phase exists, the next run chooses another
      phase. */
  lemma NextPhaseMovesOn(names: seq<string>)
    ensures var p := NextPhaseOf(PhaseNumbers(names));
            NextPhaseOf(PhaseNumbers(names + [PhaseFileName(p)])) != p
  {
    var p := NextPhaseOf(PhaseNumbers(names));
    PhaseNumbersAppend(names, PhaseFileName(p));
    PhaseOfFileName(p);
    assert p in PhaseNumbers(names + [PhaseFileName(p)]);
    NextPhaseIsNew(PhaseNumbers(names + [PhaseFileName(p)]));
  }

  /** Lines 67-79 of the script: read the task-status file (treated as empty
      when it is missing), read the API detail design (a missing design aborts
      the script before the PRD is touched), then append both, status first,
      to the PRD file. Nothing else changes. */
  method AppendStatusAndDesign(ws: Workspace, prdPath: string, statusPath: string, designPath: string)
    returns (ok: bool)
    modifies ws
    ensures ok == (designPath in old(ws.files))
    ensures ok ==> ws.files == old(ws.files)[prdPath :=
                     ContentsOr(old(ws.files), prdPath)
                     + ContentsOr(old(ws.files), statusPath)
                     + old(ws.files)[designPath]]
    ensures !ok ==> ws.files == old(ws.files)
    ensures ws.prompts == old(ws.prompts)
  {
    var status := if ws.Exists(statusPath) then ws.files[statusPath] else "";
    if !ws.Exists(designPath) {
      return false;
    }
    var design := ws.files[designPath];
    ws.Append(prdPath, status);
    ws.Append(prdPath, design);
    ok := true;
  }
}
