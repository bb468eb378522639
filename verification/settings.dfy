/** Per-guild voice settings (yomiage.py:21-27, 103, 171-181): an in-memory
    map from guild id to `{speed, pitch, intonation}`, read with a fallback
    to `DEFAULT_SETTINGS` and patched by the `setting` command. */
module Settings {
  import opened Wrappers

  /** A guild (server) id; Discord ids are integers. */
  type GuildId = int

  /** One guild's voice parameters. Python floats are modelled as reals:
      the program only copies them, it never computes with them. */
  datatype VoiceSettings = VoiceSettings(speed: real, pitch: real, intonation: real)

  /** `DEFAULT_SETTINGS`. */
  const Defaults: VoiceSettings := VoiceSettings(1.0, 0.0, 1.0)

  /** `guild_settings`: only guilds that ran `setting` have an entry. */
  type Store = map<GuildId, VoiceSettings>

  /** The optional arguments of the `setting` command; `None` leaves the
      field alone. */
  datatype Patch = Patch(speed: Option<real>, pitch: Option<real>, intonation: Option<real>)

  /** `guild_settings.get(g, DEFAULT_SETTINGS)`. */
  function Lookup(store: Store, g: GuildId): VoiceSettings {
    if g in store then store[g] else Defaults
  }

  /** Lines 176-181: each supplied argument overwrites its own field, one
      after the other. */
  function Overwrite(v: VoiceSettings, p: Patch): (r: VoiceSettings)
    ensures r.speed == p.speed.GetOr(v.speed)
    ensures r.pitch == p.pitch.GetOr(v.pitch)
    ensures r.intonation == p.intonation.GetOr(v.intonation)
  {
    var v1 := if p.speed.Some? then v.(speed := p.speed.value) else v;
    var v2 := if p.pitch.Some? then v1.(pitch := p.pitch.value) else v1;
    if p.intonation.Some? then v2.(intonation := p.intonation.value) else v2
  }

  /** The `setting` command on guild `g`: seed the entry from a copy of the
      defaults on first use (line 174), overwrite the supplied fields, and
      report the guild's entry as it now stands (line 183). */
  function SetSettings(store: Store, g: GuildId, p: Patch): (r: (Store, VoiceSettings))
    ensures r.0.Keys == store.Keys + {g}
    ensures forall h :: h in store && h != g ==> r.0[h] == store[h]
    ensures r.0[g].speed == (if p.speed.Some? then p.speed.value else Lookup(store, g).speed)
    ensures r.0[g].pitch == (if p.pitch.Some? then p.pitch.value else Lookup(store, g).pitch)
    ensures r.0[g].intonation == (if p.intonation.Some? then p.intonation.value else Lookup(store, g).intonation)
    ensures r.1 == r.0[g]
  {
    var seeded := if g !in store then store[g := Defaults] else store;
    var entry := Overwrite(seeded[g], p);
    var updated := seeded[g := entry];
    (updated, updated[g])
  }

  /** Reading a guild right after its `setting` gives the supplied values and,
      for every omitted field, what a read gave before: the guild's earlier
      value, or the default on first use. */
  lemma SetSettingsReadBack(store: Store, g: GuildId, p: Patch)
    ensures Lookup(SetSettings(store, g, p).0, g) == Overwrite(Lookup(store, g), p)
  {
  }

  /** A `setting` on one guild changes no read of any other guild. In
      particular a guild without an entry still reads the defaults, which
      holds because line 174 stores a copy of `DEFAULT_SETTINGS` rather than
      the shared dictionary itself. */
  lemma SetSettingsIsolated(store: Store, g: GuildId, p: Patch, h: GuildId)
    requires h != g
    ensures Lookup(SetSettings(store, g, p).0, h) == Lookup(store, h)
  {
  }

  /** A `setting` with no arguments creates an entry but changes no read. */
  lemma EmptyPatchKeepsReads(store: Store, g: GuildId, h: GuildId)
    ensures Lookup(SetSettings(store, g, Patch(None, None, None)).0, h) == Lookup(store, h)
  {
  }

  /** Repeating the same `setting` changes nothing more. */
  lemma SetSettingsIdempotent(store: Store, g: GuildId, p: Patch)
    ensures SetSettings(SetSettings(store, g, p).0, g, p) == SetSettings(store, g, p)
  {
    var once := SetSettings(store, g, p);
    var twice := SetSettings(once.0, g, p);
    assert twice.0[g] == once.0[g];
    assert twice.0 == once.0;
  }

  /** Two patches in a row amount to one patch in which the later supplied
      fields win. */
  function Then(p: Patch, q: Patch): (r: Patch)
    ensures r.speed.Some? <==> p.speed.Some? || q.speed.Some?
    ensures r.pitch.Some? <==> p.pitch.Some? || q.pitch.Some?
    ensures r.intonation.Some? <==> p.intonation.Some? || q.intonation.Some?
  {
    Patch(if q.speed.Some? then q.speed else p.speed,
          if q.pitch.Some? then q.pitch else p.pitch,
          if q.intonation.Some? then q.intonation else p.intonation)
  }

  lemma SetSettingsCompose(store: Store, g: GuildId, p: Patch, q: Patch)
    ensures SetSettings(SetSettings(store, g, p).0, g, q).0 == SetSettings(store, g, Then(p, q)).0
  {
    var twice := SetSettings(SetSettings(store, g, p).0, g, q).0;
    var once := SetSettings(store, g, Then(p, q)).0;
    assert twice[g] == once[g];
    assert twice.Keys == once.Keys;
  }

  /** Patches to different guilds commute. */
  lemma SetSettingsCommute(store: Store, g: GuildId, p: Patch, h: GuildId, q: Patch)
    requires g != h
    ensures SetSettings(SetSettings(store, g, p).0, h, q).0 == SetSettings(SetSettings(store, h, q).0, g, p).0
  {
    var a := Overwrite(Lookup(store, g), p);
    var b := Overwrite(Lookup(store, h), q);
    SetSettingsIsUpdate(store, g, p);
    SetSettingsIsUpdate(store, h, q);
    SetSettingsIsUpdate(store[g := a], h, q);
    SetSettingsIsUpdate(store[h := b], g, p);
    assert Lookup(store[g := a], h) == Lookup(store, h);
    assert Lookup(store[h := b], g) == Lookup(store, g);
    assert store[g := a][h := b] == store[h := b][g := a];
  }

  /** `setting` stores the patched read under the guild's id. */
  lemma SetSettingsIsUpdate(store: Store, g: GuildId, p: Patch)
    ensures SetSettings(store, g, p).0 == store[g := Overwrite(Lookup(store, g), p)]
  {
    var r := SetSettings(store, g, p).0;
    var u := store[g := Overwrite(Lookup(store, g), p)];
    assert r[g] == u[g];
    assert r.Keys == u.Keys;
  }

  /** The ranges the command declares (lines 167-169). Discord enforces them
      before the command runs; this code does not check them. */
  predicate InRange(v: VoiceSettings) {
    && 0.5 <= v.speed <= 2.0
    && -0.5 <= v.pitch <= 0.5
    && 0.0 <= v.intonation <= 2.0
  }

  predicate PatchInRange(p: Patch) {
    && (p.speed.Some? ==> 0.5 <= p.speed.value <= 2.0)
    && (p.pitch.Some? ==> -0.5 <= p.pitch.value <= 0.5)
    && (p.intonation.Some? ==> 0.0 <= p.intonation.value <= 2.0)
  }

  predicate StoreInRange(store: Store) {
    forall g :: g in store ==> InRange(store[g])
  }

  /** As long as the platform only passes in-range arguments, every read
      stays in range: the defaults are, and a patch only brings in-range
      values. */
  lemma SetSettingsKeepsRange(store: Store, g: GuildId, p: Patch, h: GuildId)
    requires StoreInRange(store) && PatchInRange(p)
    ensures StoreInRange(SetSettings(store, g, p).0)
    ensures InRange(Lookup(SetSettings(store, g, p).0, h))
  {
  }
}
