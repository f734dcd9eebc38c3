/** The match service's local copies of handyman profiles and availability, with their secondary
    indexes (match-service/app/services.py). */
module MatchProjections {
  import opened Intervals
  import opened Options
  import Text

  type Email = string

  datatype Profile = Profile(skills: seq<string>, radius: Option<real>, lat: Option<real>, lon: Option<real>)

  /** The sets proj:handymen:skill:{s} together are one relation of skills and emails. */
  datatype Projections = Projections(
    handymen: map<Email, Profile>,
    index: set<Email>,
    bySkill: set<(string, Email)>,
    availability: map<Email, seq<Window>>,
    availIndex: set<Email>)

  const EMPTY := Projections(map[], {}, {}, map[], {})

  /** [norm(s) for s in skills if s] */
  function NormAll(skills: seq<string>): seq<string> {
    if skills == [] then []
    else NormAll(skills[..|skills| - 1])
         + if skills[|skills| - 1] != "" then [Text.Normalize(skills[|skills| - 1])] else []
  }

  /** Keep the first occurrence of each skill. */
  function Dedup(skills: seq<string>): (kept: seq<string>)
    ensures forall s :: s in kept <==> s in skills
    ensures forall i, j :: 0 <= i < j < |kept| ==> kept[i] != kept[j]
  {
    if skills == [] then []
    else
      var kept := Dedup(skills[..|skills| - 1]);
      if skills[|skills| - 1] in kept then kept else kept + [skills[|skills| - 1]]
  }

  function NormalizeProfile(p: Profile): Profile {
    p.(skills := Dedup(NormAll(p.skills)))
  }

  function SkillsOf(pr: Projections, email: Email): set<string> {
    if email in pr.handymen then set s | s in pr.handymen[email].skills else {}
  }

  function Upsert(pr: Projections, email: Email, p: Profile): Projections {
    if email == "" then pr
    else
      var stored := NormalizeProfile(p);
      var oldSkills, newSkills := SkillsOf(pr, email), set s | s in stored.skills;
      pr.(handymen := pr.handymen[email := stored],
          index := pr.index + {email},
          bySkill := pr.bySkill - (set s | s in oldSkills - newSkills :: (s, email)) + (set s | s in newSkills :: (s, email)))
  }

  function Delete(pr: Projections, email: Email): Projections {
    if email == "" then pr
    else
      pr.(handymen := pr.handymen - {email},
          index := pr.index - {email},
          bySkill := pr.bySkill - (set s | s in SkillsOf(pr, email) :: (s, email)))
  }

  /** Only slots that end after they start are kept. */
  function Clean(slots: seq<Window>): (clean: seq<Window>)
    ensures forall i :: 0 <= i < |clean| ==> clean[i].Nonempty()
  {
    if slots == [] then []
    else Clean(slots[..|slots| - 1]) + if slots[|slots| - 1].Nonempty() then [slots[|slots| - 1]] else []
  }

  function DeleteAvailability(pr: Projections, email: Email): Projections {
    if email == "" then pr
    else pr.(availability := pr.availability - {email}, availIndex := pr.availIndex - {email})
  }

  function UpsertAvailability(pr: Projections, email: Email, slots: seq<Window>): Projections {
    if email == "" then pr
    else if Clean(slots) == [] then DeleteAvailability(pr, email)
    else pr.(availability := pr.availability[email := Clean(slots)], availIndex := pr.availIndex + {email})
  }

  // ---- The handlers ----

  class ProjectionStore {
    var handymen: map<Email, Profile>
    var index: set<Email>
    var bySkill: set<(string, Email)>
    var availability: map<Email, seq<Window>>
    var availIndex: set<Email>

    ghost function State(): Projections
      reads this
    {
      Projections(handymen, index, bySkill, availability, availIndex)
    }

    constructor ()
      ensures State() == EMPTY
    {
      handymen, index, bySkill, availability, availIndex := map[], {}, {}, map[], {};
    }

    /** SREM of the email from the set of each skill. */
    method RemoveFromSkills(email: Email, skills: set<string>)
      modifies this`bySkill
      ensures bySkill == old(bySkill) - (set s | s in skills :: (s, email))
    {
      var left := skills;
      while left != {}
        invariant left <= skills
        invariant bySkill == old(bySkill) - (set s | s in skills - left :: (s, email))
      {
        var s :| s in left;
        left := left - {s};
        bySkill := bySkill - {(s, email)};
      }
    }

    /** SADD of the email to the set of each skill. */
    method AddToSkills(email: Email, skills: set<string>)
      modifies this`bySkill
      ensures bySkill == old(bySkill) + (set s | s in skills :: (s, email))
    {
      var left := skills;
      while left != {}
        invariant left <= skills
        invariant bySkill == old(bySkill) + (set s | s in skills - left :: (s, email))
      {
        var s :| s in left;
        left := left - {s};
        bySkill := bySkill + {(s, email)};
      }
    }

    method UpsertHandyman(email: Email, p: Profile)
      modifies this
      ensures State() == Upsert(old(State()), email, p)
    {
      if email == "" {
        return;
      }
      var stored := NormalizeProfile(p);
      var oldSkills := if email in handymen then set s | s in handymen[email].skills else {};
      var newSkills := set s | s in stored.skills;
      handymen := handymen[email := stored];
      index := index + {email};
      RemoveFromSkills(email, oldSkills - newSkills);
      AddToSkills(email, newSkills);
    }

    method DeleteHandyman(email: Email) returns (was: Option<Profile>)
      modifies this
      ensures State() == Delete(old(State()), email)
      ensures was == if email != "" && email in old(handymen) then Some(old(handymen)[email]) else None
    {
      if email == "" {
        return None;
      }
      was := if email in handymen then Some(handymen[email]) else None;
      handymen := handymen - {email};
      index := index - {email};
      RemoveFromSkills(email, if was.Some? then set s | s in was.value.skills else {});
    }

    method DeleteAvailabilitySlots(email: Email)
      modifies this
      ensures State() == DeleteAvailability(old(State()), email)
    {
      if email == "" {
        return;
      }
      availability := availability - {email};
      availIndex := availIndex - {email};
    }

    method UpsertAvailabilitySlots(email: Email, slots: seq<Window>)
      modifies this
      ensures State() == UpsertAvailability(old(State()), email, slots)
    {
      if email == "" {
        return;
      }
      var clean: seq<Window> := [];
      for i := 0 to |slots|
        invariant State() == old(State())
        invariant clean == Clean(slots[..i])
      {
        assert slots[..i + 1][..i] == slots[..i];
        if slots[i].start < slots[i].end {
          clean := clean + [slots[i]];
        }
      }
      assert slots[..|slots|] == slots;
      if clean == [] {
        DeleteAvailabilitySlots(email);
        return;
      }
      availability := availability[email := clean];
      availIndex := availIndex + {email};
    }

    /** The profiles found through the skill index are those that a scan of all profiles would find. */
    method ListBySkill(skill: string) returns (found: map<Email, Profile>)
      requires IndexesExact(State())
      ensures forall e :: e in found <==> e in handymen && Text.Normalize(skill) != "" && Text.Normalize(skill) in handymen[e].skills
      ensures forall e :: e in found ==> found[e] == handymen[e]
    {
      var wanted := Text.Normalize(skill);
      found := map[];
      if wanted == "" {
        return;
      }
      var emails := set p | p in bySkill && p.0 == wanted :: p.1;
      var left := emails;
      while left != {}
        invariant left <= emails
        invariant forall e :: e in found <==> e in emails - left && e in handymen
        invariant forall e :: e in found ==> found[e] == handymen[e]
      {
        var e :| e in left;
        left := left - {e};
        if e in handymen {
          found := found[e := handymen[e]];
        }
      }
      forall e
        ensures e in emails <==> e in handymen && wanted in handymen[e].skills
      {
        assert e in emails <==> (wanted, e) in bySkill;
      }
    }
  }

  // ---- Indexes agree with the projections ----

  ghost predicate SkillIndexExact(pr: Projections) {
    forall s, e :: (s, e) in pr.bySkill <==> e in pr.handymen && s in pr.handymen[e].skills
  }

  ghost predicate AvailabilitySound(pr: Projections) {
    && pr.availIndex == pr.availability.Keys
    && forall e :: e in pr.availability ==>
         pr.availability[e] != [] && forall i :: 0 <= i < |pr.availability[e]| ==> pr.availability[e][i].Nonempty()
  }

  ghost predicate IndexesExact(pr: Projections) {
    pr.index == pr.handymen.Keys && SkillIndexExact(pr) && AvailabilitySound(pr)
  }

  lemma UpsertKeepsIndexesExact(pr: Projections, email: Email, p: Profile)
    requires IndexesExact(pr)
    ensures IndexesExact(Upsert(pr, email, p))
  {
    if email != "" {
      var pr' := Upsert(pr, email, p);
      forall s, e
        ensures (s, e) in pr'.bySkill <==> e in pr'.handymen && s in pr'.handymen[e].skills
      {
        assert (s, e) in pr.bySkill <==> e in pr.handymen && s in pr.handymen[e].skills;
      }
    }
  }

  lemma DeleteKeepsIndexesExact(pr: Projections, email: Email)
    requires IndexesExact(pr)
    ensures IndexesExact(Delete(pr, email))
  {
    if email != "" {
      var pr' := Delete(pr, email);
      forall s, e
        ensures (s, e) in pr'.bySkill <==> e in pr'.handymen && s in pr'.handymen[e].skills
      {
        assert (s, e) in pr.bySkill <==> e in pr.handymen && s in pr.handymen[e].skills;
      }
    }
  }

  lemma AvailabilityKeepsIndexesExact(pr: Projections, email: Email, slots: seq<Window>)
    requires IndexesExact(pr)
    ensures IndexesExact(UpsertAvailability(pr, email, slots))
    ensures IndexesExact(DeleteAvailability(pr, email))
  {
  }

  // ---- Which slots are kept ----

  lemma {:induction false} CleanConcat(a: seq<Window>, b: seq<Window>)
    ensures Clean(a + b) == Clean(a) + Clean(b)
  {
    if b == [] {
      assert a + b == a;
    } else {
      var init, last := b[..|b| - 1], b[|b| - 1];
      assert a + b == (a + init) + [last];
      assert (a + b)[..|a + b| - 1] == a + init;
      CleanConcat(a, init);
    }
  }

  /** A slot is kept, in its place, exactly when it ends after it starts. */
  lemma {:induction false} SlotIsKeptExactly(before: seq<Window>, slot: Window, after: seq<Window>)
    ensures Clean(before + [slot] + after) == Clean(before) + (if slot.start < slot.end then [slot] else []) + Clean(after)
  {
    CleanConcat(before + [slot], after);
    CleanConcat(before, [slot]);
    assert [slot][..0] == [];
  }

  predicate SomeEndAfterStart(slots: seq<Window>) {
    exists i :: 0 <= i < |slots| && slots[i].start < slots[i].end
  }

  lemma SomeEndAfterStartStep(init: seq<Window>, last: Window)
    ensures SomeEndAfterStart(init + [last]) <==> SomeEndAfterStart(init) || last.start < last.end
  {
    var slots := init + [last];
    assert slots[|init|] == last && forall i :: 0 <= i < |init| ==> slots[i] == init[i];
  }

  lemma {:induction false} SomeSlotIsKept(slots: seq<Window>)
    ensures Clean(slots) != [] <==> SomeEndAfterStart(slots)
  {
    if slots != [] {
      var init, last := slots[..|slots| - 1], slots[|slots| - 1];
      SomeSlotIsKept(init);
      SomeEndAfterStartStep(init, last);
      assert slots == init + [last];
    }
  }

  /** A handyman's slots are stored when one of them is kept, and else nothing is stored. */
  lemma {:induction false} AvailabilityStoresKeptSlots(pr: Projections, email: Email, slots: seq<Window>)
    requires email != ""
    ensures var after := UpsertAvailability(pr, email, slots);
            && (email in after.availability <==> SomeEndAfterStart(slots))
            && (email in after.availability ==> after.availability[email] == Clean(slots))
            && after.availability - {email} == pr.availability - {email} && after.handymen == pr.handymen
  {
    SomeSlotIsKept(slots);
    var after := UpsertAvailability(pr, email, slots);
    if Clean(slots) == [] {
      assert after.availability == pr.availability - {email};
    } else {
      assert after.availability == pr.availability[email := Clean(slots)];
    }
  }
}
