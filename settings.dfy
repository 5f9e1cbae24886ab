/** The settings actions: `getSettings` reads the single settings row and
    creates it with fixed defaults when the table is empty; `updateSettings`
    creates it from the validated input or updates the row found. */
module Settings {
  import opened Wrappers
  import opened Validation
  import opened SettingsSchema

  /** A stored settings row. */
  datatype SiteSettings = SiteSettings(
    id: string,
    name: string,
    tagline: string,
    bio: string,
    techStack: seq<string>,
    email: Option<string>,
    github: Option<string>,
    linkedin: Option<string>,
    twitter: Option<string>,
    location: Option<string>)

  const DefaultId: string := "default"

  const WelcomeText: string := "Welcome to my portfolio! Update this text in the Settings page."

  /** The row `getSettings` creates on an empty table. */
  const DefaultSettings: SiteSettings :=
    SiteSettings(DefaultId, "Your Name", WelcomeText, WelcomeText, DefaultTechStack,
                 None, None, None, None, None)

  /** Paths revalidated after a settings update. */
  const SettingsPaths: seq<string> := ["/", "/about", "/projects", "/blog", "/admin/settings"]

  /** `create({ data: { id: "default", ...validated } })`: fields left out of
      the input are stored as null; an empty string is stored as it is. */
  function CreatedSettings(d: SettingsData): (s: SiteSettings)
    ensures s.id == DefaultId && s.techStack == d.techStack
    ensures s.email == d.email && s.github == d.github && s.linkedin == d.linkedin
    ensures s.twitter == d.twitter && s.location == d.location
    ensures s.name == d.name && s.tagline == d.tagline && s.bio == d.bio
  {
    SiteSettings(DefaultId, d.name, d.tagline, d.bio, d.techStack, d.email, d.github,
                 d.linkedin, d.twitter, d.location)
  }

  /** The value a column takes under `update({ data: validated })`: an absent
      field keeps the stored value, a present one (the empty string
      included) replaces it. */
  function Overwrite(stored: Option<string>, given: Option<string>): (r: Option<string>)
    ensures given.Some? ==> r == given
    ensures given.None? ==> r == stored
  {
    if given.Some? then given else stored
  }

  /** `update({ where: { id }, data: validated })` on the row found. */
  function UpdatedSettings(prev: SiteSettings, d: SettingsData): (s: SiteSettings)
    ensures s.id == prev.id && s.name == d.name && s.techStack == d.techStack
    ensures s.tagline == d.tagline && s.bio == d.bio
    ensures s.email == Overwrite(prev.email, d.email)
    ensures s.github == Overwrite(prev.github, d.github)
    ensures s.linkedin == Overwrite(prev.linkedin, d.linkedin)
    ensures s.twitter == Overwrite(prev.twitter, d.twitter)
    ensures s.location == Overwrite(prev.location, d.location)
  {
    SiteSettings(prev.id, d.name, d.tagline, d.bio, d.techStack,
                 Overwrite(prev.email, d.email), Overwrite(prev.github, d.github),
                 Overwrite(prev.linkedin, d.linkedin), Overwrite(prev.twitter, d.twitter),
                 Overwrite(prev.location, d.location))
  }

  /** The settings table. */
  class SettingsStore {
    var rows: map<string, SiteSettings>
    ghost var revalidated: seq<string>

    /** At most one row, stored under its own id. */
    predicate Valid()
      reads this
    {
      && |rows| <= 1
      && forall k :: k in rows ==> rows[k].id == k
    }

    constructor ()
      ensures Valid() && rows == map[] && revalidated == []
    {
      rows := map[];
      revalidated := [];
    }

    /** `findFirst()`: some row of the table, or null when it is empty. */
    method FindFirst() returns (r: Option<SiteSettings>)
      requires Valid()
      ensures r.None? <==> rows == map[]
      ensures r.Some? ==> r.value.id in rows && rows[r.value.id] == r.value
    {
      if rows == map[] {
        return None;
      }
      var k :| k in rows;
      r := Some(rows[k]);
    }

    /** `getSettings`: on an empty table, creates and returns the default
        row; otherwise returns the existing row and changes nothing. */
    method Get() returns (r: Outcome<SiteSettings>)
      requires Valid()
      modifies this
      ensures Valid()
      ensures old(rows) == map[] ==> rows == map[DefaultId := DefaultSettings] && r == Success(DefaultSettings)
      ensures old(rows) != map[] ==> rows == old(rows) && r.Success? && r.data in rows.Values
      ensures revalidated == old(revalidated)
    {
      var settings := FindFirst();
      if settings.None? {
        rows := rows[DefaultId := DefaultSettings];
        settings := Some(DefaultSettings);
      }
      r := Success(settings.value);
    }

    /** `updateSettings`: an invalid input fails and changes nothing; on an
        empty table the `"default"` row is created from the input; otherwise
        the row found is updated under its own id, so the table never grows
        past one row. */
    method Update(input: SettingsInput, isUrl: FormatCheck, isEmail: FormatCheck) returns (r: Outcome<SiteSettings>)
      requires Valid()
      modifies this
      ensures Valid()
      ensures r.Success? <==> Parse(input, isUrl, isEmail).Some?
      ensures r.Failure? ==> r.error == "Failed to update settings" && rows == old(rows)
                             && revalidated == old(revalidated)
      ensures r.Success? && old(rows) == map[] ==>
                r.data == CreatedSettings(Parse(input, isUrl, isEmail).value)
                && rows == map[DefaultId := r.data]
      ensures r.Success? && old(rows) != map[] ==>
                && r.data.id in old(rows)
                && r.data == UpdatedSettings(old(rows)[r.data.id], Parse(input, isUrl, isEmail).value)
                && rows == old(rows)[r.data.id := r.data]
                && |rows| == |old(rows)|
      ensures r.Success? ==> revalidated == old(revalidated) + SettingsPaths
    {
      var parsed := Parse(input, isUrl, isEmail);
      if parsed.None? {
        return Failure("Failed to update settings");
      }
      var d := parsed.value;
      var settings := FindFirst();
      var written: SiteSettings;
      if settings.None? {
        written := CreatedSettings(d);
      } else {
        written := UpdatedSettings(settings.value, d);
      }
      rows := rows[written.id := written];
      revalidated := revalidated + SettingsPaths;
      r := Success(written);
    }
  }
}
