/**
  The GL and EGL objects behind the pool: which ones initGlesTargets and
  destroyGlesTargets create and delete, and exactly when some are lost.
 */
module PresentationGles {
  import opened PresentationModel

  /** How many objects of a kind were created and deleted. */
  datatype Tally = Tally(made: nat, deleted: nat)

  datatype Names = Names(images: Tally, textures: Tally, fbos: Tally)

  datatype Targets = Targets(slots: Slots, names: Names)

  /** What GL does for one slot, with the names it creates even where the call then fails. */
  datatype Attempt =
    | NoBuffer | ImageFails
    | TextureFails(image: Name)
    | Incomplete(image: Name, texture: Name)
    | Complete(image: Name, texture: Name, fbo: Name)

  function AttemptAt(attempts: seq<Attempt>, i: nat): Attempt {
    if i < |attempts| then attempts[i] else NoBuffer
  }

  function Made(t: Tally): Tally { t.(made := t.made + 1) }

  function Deleted(t: Tally, n: nat): Tally { t.(deleted := t.deleted + n) }

  function Held(name: nat): nat { if name != 0 then 1 else 0 }

  function ImagesHeld(s: Slots): nat { Held(s[0].eglImage) + Held(s[1].eglImage) + Held(s[2].eglImage) }

  function TexturesHeld(s: Slots): nat { Held(s[0].texture) + Held(s[1].texture) + Held(s[2].texture) }

  function FbosHeld(s: Slots): nat { Held(s[0].fbo) + Held(s[1].fbo) + Held(s[2].fbo) }

  /** canDestroy: there is a display, and eglDestroyImageKHR was found. */
  function DestroyTargets(t: Targets, canDestroy: bool): Targets {
    Targets([WithoutGles(t.slots[0]), WithoutGles(t.slots[1]), WithoutGles(t.slots[2])],
            Names(Deleted(t.names.images, if canDestroy then ImagesHeld(t.slots) else 0),
                  Deleted(t.names.textures, TexturesHeld(t.slots)),
                  Deleted(t.names.fbos, FbosHeld(t.slots))))
  }

  function InitTargets(t: Targets, i: nat, attempts: seq<Attempt>, canDestroy: bool): Targets
    decreases 3 - i
  {
    if i >= 3 then t
    else
      var s := t.slots[i];
      if s.buffer == 0 then InitTargets(t, i + 1, attempts, canDestroy)
      else match AttemptAt(attempts, i)
        case NoBuffer => DestroyTargets(t, canDestroy)
        case ImageFails => DestroyTargets(t, canDestroy)
        case TextureFails(image) =>
          DestroyTargets(Targets(t.slots[i := s.(eglImage := image)],
                                 t.names.(images := Made(t.names.images), textures := Made(t.names.textures))),
                         canDestroy)
        case Incomplete(image, texture) =>
          DestroyTargets(Targets(t.slots[i := s.(eglImage := image, texture := texture)], MadeAll(t.names)),
                         canDestroy)
        case Complete(image, texture, fbo) =>
          InitTargets(Stored(t, i, image, texture, fbo), i + 1, attempts, canDestroy)
  }

  function MadeAll(n: Names): Names {
    Names(Made(n.images), Made(n.textures), Made(n.fbos))
  }

  function Stored(t: Targets, i: Index, image: Name, texture: Name, fbo: Name): Targets {
    Targets(t.slots[i := t.slots[i].(eglImage := image, texture := texture, fbo := fbo)], MadeAll(t.names))
  }

  // ---------------------------------------------------------------------------
  // The slots are those of PresentationModel
  // ---------------------------------------------------------------------------

  function Outcome(a: Attempt): GlesOutcome {
    match a
    case NoBuffer => NoClientBuffer
    case ImageFails => NoImage
    case TextureFails(_) => TextureError
    case Incomplete(_, _) => FramebufferIncomplete
    case Complete(image, texture, fbo) => Target(image, texture, fbo)
  }

  function Outcomes(attempts: seq<Attempt>): seq<GlesOutcome> {
    seq(|attempts|, k requires 0 <= k < |attempts| => Outcome(attempts[k]))
  }

  lemma {:induction false} SameSlots(p: Pool, t: Targets, i: nat, attempts: seq<Attempt>, canDestroy: bool)
    requires p.slots == t.slots
    ensures InitTargets(t, i, attempts, canDestroy).slots == InitGlesFrom(p, i, Outcomes(attempts)).0.slots
    decreases 3 - i
  {
    hide DestroyTargets, DestroyGles, Outcomes, AttemptAt, GlesAt;
    if i < 3 {
      OutcomeAt(attempts, i);
      if t.slots[i].buffer == 0 {
        SameSlots(p, t, i + 1, attempts, canDestroy);
      } else if AttemptAt(attempts, i).Complete? {
        var c := AttemptAt(attempts, i);
        var s := p.slots[i].(eglImage := c.image, texture := c.texture, fbo := c.fbo);
        SameSlots(WithSlot(p, i, s), Stored(t, i, c.image, c.texture, c.fbo), i + 1, attempts, canDestroy);
      } else {
        FailSlots(p, t, i, attempts, canDestroy);
      }
    }
  }

  lemma FailSlots(p: Pool, t: Targets, i: Index, attempts: seq<Attempt>, canDestroy: bool)
    requires p.slots == t.slots && t.slots[i].buffer != 0 && !AttemptAt(attempts, i).Complete?
    ensures InitTargets(t, i, attempts, canDestroy).slots == InitGlesFrom(p, i, Outcomes(attempts)).0.slots
  {
    OutcomeAt(attempts, i);
    var failure := AttemptAt(attempts, i);
    hide Outcomes, AttemptAt, GlesAt;
    assert InitGlesFrom(p, i, Outcomes(attempts)).0 == DestroyGles(p);
    assert InitTargets(t, i, attempts, canDestroy) == DestroyTargets(Failing(t, i, failure), canDestroy);
    hide InitTargets, InitGlesFrom, Failing;
    FailingSlots(t, i, failure, canDestroy);
  }

  lemma FailingSlots(t: Targets, i: Index, attempt: Attempt, canDestroy: bool)
    requires !attempt.Complete?
    ensures DestroyTargets(Failing(t, i, attempt), canDestroy).slots == DestroyTargets(t, canDestroy).slots
  {
    if i == 0 {} else if i == 1 {} else {}
  }

  lemma OutcomeAt(attempts: seq<Attempt>, i: nat)
    ensures GlesAt(Outcomes(attempts), i) == Outcome(AttemptAt(attempts, i))
  {
  }

  // ---------------------------------------------------------------------------
  // What is lost
  // ---------------------------------------------------------------------------

  /** Objects created, not deleted, and in no slot. */
  function Lost(t: Targets): int {
    (t.names.images.made - t.names.images.deleted - ImagesHeld(t.slots))
    + (t.names.textures.made - t.names.textures.deleted - TexturesHeld(t.slots))
    + (t.names.fbos.made - t.names.fbos.deleted - FbosHeld(t.slots))
  }

  predicate HasName(s: Slot) {
    s.eglImage != 0 || s.texture != 0 || s.fbo != 0
  }

  /** Destroying loses the images it cannot destroy, and nothing else. */
  lemma DestroyLoses(t: Targets, canDestroy: bool)
    ensures Lost(DestroyTargets(t, canDestroy)) == Lost(t) + if canDestroy then 0 else ImagesHeld(t.slots)
  {
  }

  /** The first slot with a buffer, from i on, that gets no complete target; 3 if all do. */
  function Stop(slots: Slots, i: nat, attempts: seq<Attempt>): (k: nat)
    requires i <= 3
    ensures i <= k <= 3
    ensures k < 3 ==> slots[k].buffer != 0 && !AttemptAt(attempts, k).Complete?
    ensures forall j :: i <= j < k && slots[j].buffer != 0 ==> AttemptAt(attempts, j).Complete?
    decreases 3 - i
  {
    if i == 3 then 3
    else if slots[i].buffer != 0 && !AttemptAt(attempts, i).Complete? then i
    else Stop(slots, i + 1, attempts)
  }

  /** Slot j gets a target before slot k fails, and still held part of another one. */
  predicate Replaced(slots: Slots, i: nat, k: nat, j: Index) {
    i <= j < k && slots[j].buffer != 0 && HasName(slots[j])
  }

  /** Slot j ends up with an image by the time the slot k fails. */
  predicate ImageAt(slots: Slots, i: nat, k: nat, j: Index) {
    slots[j].eglImage != 0 || (i <= j < k && slots[j].buffer != 0)
  }

  /**
    When init, working from slot i, loses something: it replaces a name a slot still
    held, or it fails after creating a texture, or it fails with images and no way to
    destroy them.
   */
  predicate Loses(slots: Slots, i: nat, attempts: seq<Attempt>, canDestroy: bool)
    requires i <= 3
  {
    var k := Stop(slots, i, attempts);
    || Replaced(slots, i, k, 0) || Replaced(slots, i, k, 1) || Replaced(slots, i, k, 2)
    || (k < 3 && (AttemptAt(attempts, k).TextureFails? || AttemptAt(attempts, k).Incomplete?))
    || (k < 3 && !canDestroy && (ImageAt(slots, i, k, 0) || ImageAt(slots, i, k, 1) || ImageAt(slots, i, k, 2)))
  }

  lemma StoreLoses(t: Targets, i: Index, image: Name, texture: Name, fbo: Name)
    ensures var u := Stored(t, i, image, texture, fbo);
      Lost(u) == Lost(t) + Held(t.slots[i].eglImage) + Held(t.slots[i].texture) + Held(t.slots[i].fbo)
  {
    if i == 0 {} else if i == 1 {} else {}
  }

  /** An image stored, and so many objects more created that no slot holds. */
  lemma PartLoses(t: Targets, i: Index, s: Slot, names: Names, extra: nat)
    requires s.eglImage != 0 && s.fbo == t.slots[i].fbo
    requires names.images == Made(t.names.images)
    requires names.textures.made + names.fbos.made + Held(t.slots[i].texture)
          == t.names.textures.made + t.names.fbos.made + Held(s.texture) + extra
    requires names.textures.deleted == t.names.textures.deleted && names.fbos.deleted == t.names.fbos.deleted
    ensures Lost(Targets(t.slots[i := s], names)) == Lost(t) + Held(t.slots[i].eglImage) + extra
  {
    if i == 0 {} else if i == 1 {} else {}
  }

  /** t as it is when the attempt on slot i fails, before the clean-up. */
  function Failing(t: Targets, i: Index, attempt: Attempt): Targets {
    var s := t.slots[i];
    match attempt
    case TextureFails(image) =>
      Targets(t.slots[i := s.(eglImage := image)],
              t.names.(images := Made(t.names.images), textures := Made(t.names.textures)))
    case Incomplete(image, texture) =>
      Targets(t.slots[i := s.(eglImage := image, texture := texture)], MadeAll(t.names))
    case _ => t
  }

  lemma FailingLoses(t: Targets, i: Index, attempt: Attempt)
    requires !attempt.Complete?
    ensures var late := attempt.TextureFails? || attempt.Incomplete?;
      if late then Lost(Failing(t, i, attempt)) > Lost(t) else Failing(t, i, attempt) == t
  {
    var s, u := t.slots[i], Failing(t, i, attempt);
    match attempt
    case TextureFails(image) => PartLoses(t, i, u.slots[i], u.names, 1);
    case Incomplete(image, texture) => PartLoses(t, i, u.slots[i], u.names, 1 + Held(s.texture));
    case _ =>
  }

  lemma FailLoses(t: Targets, i: Index, attempt: Attempt, attempts: seq<Attempt>, canDestroy: bool)
    requires t.slots[i].buffer != 0 && attempt == AttemptAt(attempts, i) && !attempt.Complete?
    ensures var u := InitTargets(t, i, attempts, canDestroy);
      Lost(u) >= Lost(t) && (Lost(u) > Lost(t) <==> Loses(t.slots, i, attempts, canDestroy))
  {
    var u := Failing(t, i, attempt);
    assert InitTargets(t, i, attempts, canDestroy) == DestroyTargets(u, canDestroy);
    assert Stop(t.slots, i, attempts) == i;
    hide InitTargets, Lost, DestroyTargets, Failing, HasName;
    FailingLoses(t, i, attempt);
    DestroyLoses(u, canDestroy);
  }

  /** What slot i got before the rest is worked on. */
  lemma LosesOnward(t: Targets, i: Index, image: Name, texture: Name, fbo: Name,
                    attempts: seq<Attempt>, canDestroy: bool)
    requires t.slots[i].buffer != 0 && AttemptAt(attempts, i) == Complete(image, texture, fbo)
    ensures Loses(t.slots, i, attempts, canDestroy)
            <==> HasName(t.slots[i]) || Loses(Stored(t, i, image, texture, fbo).slots, i + 1, attempts, canDestroy)
  {
    var u := Stored(t, i, image, texture, fbo).slots;
    StopOnward(t.slots, u, i, attempts);
    hide Stop, HasName;
    if i == 0 {} else if i == 1 {} else {}
  }

  lemma {:induction false} SameStop(s: Slots, u: Slots, i: nat, attempts: seq<Attempt>)
    requires i <= 3 && forall j: Index :: i <= j ==> u[j] == s[j]
    ensures Stop(s, i, attempts) == Stop(u, i, attempts)
    decreases 3 - i
  {
    if i < 3 { SameStop(s, u, i + 1, attempts); }
  }

  lemma StopOnward(s: Slots, u: Slots, i: Index, attempts: seq<Attempt>)
    requires AttemptAt(attempts, i).Complete? && forall j: Index :: j != i ==> u[j] == s[j]
    ensures Stop(s, i, attempts) == Stop(u, i + 1, attempts)
  {
    SameStop(s, u, i + 1, attempts);
  }

  /** Init never brings anything back, and loses something exactly as Loses says. */
  lemma {:induction false} InitLosesIff(t: Targets, i: nat, attempts: seq<Attempt>, canDestroy: bool)
    requires i <= 3
    ensures var u := InitTargets(t, i, attempts, canDestroy);
      Lost(u) >= Lost(t) && (Lost(u) > Lost(t) <==> Loses(t.slots, i, attempts, canDestroy))
    decreases 3 - i
  {
    if i < 3 {
      if t.slots[i].buffer == 0 {
        InitLosesIff(t, i + 1, attempts, canDestroy);
        SkipLoses(t.slots, i, attempts, canDestroy);
      } else {
        match AttemptAt(attempts, i)
        case Complete(image, texture, fbo) =>
          hide Lost, Loses, HasName, Stored;
          InitLosesIff(Stored(t, i, image, texture, fbo), i + 1, attempts, canDestroy);
          StoreLosesIff(t, i, image, texture, fbo);
          LosesOnward(t, i, image, texture, fbo, attempts, canDestroy);
        case failure => FailLoses(t, i, failure, attempts, canDestroy);
      }
    }
  }

  lemma SkipLoses(slots: Slots, i: Index, attempts: seq<Attempt>, canDestroy: bool)
    requires slots[i].buffer == 0
    ensures Loses(slots, i, attempts, canDestroy) <==> Loses(slots, i + 1, attempts, canDestroy)
  {
    assert Stop(slots, i, attempts) == Stop(slots, i + 1, attempts);
    hide Stop, HasName;
    if i == 0 {} else if i == 1 {} else {}
  }

  lemma StoreLosesIff(t: Targets, i: Index, image: Name, texture: Name, fbo: Name)
    ensures var u := Stored(t, i, image, texture, fbo);
      Lost(u) >= Lost(t) && (Lost(u) > Lost(t) <==> HasName(t.slots[i]))
  {
    StoreLoses(t, i, image, texture, fbo);
  }

  // ---------------------------------------------------------------------------
  // Runs
  // ---------------------------------------------------------------------------

  datatype Use = DoInit(attempts: seq<Attempt>, canDestroy: bool) | DoDestroy(canDestroy: bool)

  function Used(t: Targets, use: Use): Targets {
    match use
    case DoInit(attempts, canDestroy) => InitTargets(t, 0, attempts, canDestroy)
    case DoDestroy(canDestroy) => DestroyTargets(t, canDestroy)
  }

  function UsedAll(t: Targets, uses: seq<Use>): Targets
    decreases |uses|
  {
    if uses == [] then t else Used(UsedAll(t, uses[..|uses| - 1]), uses[|uses| - 1])
  }

  predicate UseLoses(slots: Slots, use: Use) {
    match use
    case DoInit(attempts, canDestroy) => Loses(slots, 0, attempts, canDestroy)
    case DoDestroy(canDestroy) => !canDestroy && ImagesHeld(slots) > 0
  }

  predicate NoneLoses(t: Targets, uses: seq<Use>)
    decreases |uses|
  {
    uses == [] ||
    (NoneLoses(t, uses[..|uses| - 1]) && !UseLoses(UsedAll(t, uses[..|uses| - 1]).slots, uses[|uses| - 1]))
  }

  lemma UseLosesIff(t: Targets, use: Use)
    ensures Lost(Used(t, use)) >= Lost(t) && (Lost(Used(t, use)) > Lost(t) <==> UseLoses(t.slots, use))
  {
    match use
    case DoInit(attempts, canDestroy) => InitLosesIff(t, 0, attempts, canDestroy);
    case DoDestroy(canDestroy) => DestroyLoses(t, canDestroy);
  }

  /** Over any sequence of inits and destroys nothing is lost if and only if none of them loses. */
  lemma {:induction false} NothingLostIff(t: Targets, uses: seq<Use>)
    ensures Lost(UsedAll(t, uses)) >= Lost(t)
    ensures Lost(UsedAll(t, uses)) == Lost(t) <==> NoneLoses(t, uses)
    decreases |uses|
  {
    hide Lost, Used, UseLoses;
    if uses != [] {
      var front := uses[..|uses| - 1];
      NothingLostIff(t, front);
      UseLosesIff(UsedAll(t, front), uses[|uses| - 1]);
    }
  }
}
