/** The settings page (Settings.tsx): five boolean preferences held in page
    state, each flipped by its switch. */
module Settings {

  datatype SettingKey = Notifications | EmailUpdates | DarkMode | SoundEffects | AutoSubmit

  /** The `settings` record. */
  datatype SettingsRecord = SettingsRecord(
    notifications: bool, emailUpdates: bool, darkMode: bool, soundEffects: bool, autoSubmit: bool)

  /** `settings[key]`. */
  function Get(s: SettingsRecord, key: SettingKey): bool
  {
    match key
    case Notifications => s.notifications
    case EmailUpdates => s.emailUpdates
    case DarkMode => s.darkMode
    case SoundEffects => s.soundEffects
    case AutoSubmit => s.autoSubmit
  }

  /** `{ ...prev, [key]: !prev[key] }`. */
  function Flip(s: SettingsRecord, key: SettingKey): (t: SettingsRecord)
    ensures Get(t, key) == !Get(s, key)
    ensures forall other :: other != key ==> Get(t, other) == Get(s, other)
  {
    match key
    case Notifications => s.(notifications := !s.notifications)
    case EmailUpdates => s.(emailUpdates := !s.emailUpdates)
    case DarkMode => s.(darkMode := !s.darkMode)
    case SoundEffects => s.(soundEffects := !s.soundEffects)
    case AutoSubmit => s.(autoSubmit := !s.autoSubmit)
  }

  /** Two records that agree on every key are the same record. */
  lemma SameSettings(s: SettingsRecord, t: SettingsRecord)
    requires forall key :: Get(s, key) == Get(t, key)
    ensures s == t
  {
    assert Get(s, Notifications) == Get(t, Notifications);
    assert Get(s, EmailUpdates) == Get(t, EmailUpdates);
    assert Get(s, DarkMode) == Get(t, DarkMode);
    assert Get(s, SoundEffects) == Get(t, SoundEffects);
    assert Get(s, AutoSubmit) == Get(t, AutoSubmit);
  }

  /** Flipping the same switch twice restores the record. */
  lemma FlipTwice(s: SettingsRecord, key: SettingKey)
    ensures Flip(Flip(s, key), key) == s
  {
    SameSettings(Flip(Flip(s, key), key), s);
  }

  /** Flips of different switches commute. */
  lemma FlipsCommute(s: SettingsRecord, a: SettingKey, b: SettingKey)
    ensures Flip(Flip(s, a), b) == Flip(Flip(s, b), a)
  {
    SameSettings(Flip(Flip(s, a), b), Flip(Flip(s, b), a));
  }

  /** The page's state. */
  class SettingsPage {
    var settings: SettingsRecord

    /** The `useState` initial values. */
    constructor ()
      ensures settings == SettingsRecord(true, false, false, true, true)
      ensures Get(settings, Notifications) && !Get(settings, EmailUpdates) && !Get(settings, DarkMode)
      ensures Get(settings, SoundEffects) && Get(settings, AutoSubmit)
    {
      settings := SettingsRecord(true, false, false, true, true);
    }

    /** `handleSettingChange`: negate exactly the chosen setting. */
    method HandleSettingChange(key: SettingKey)
      modifies this
      ensures settings == Flip(old(settings), key)
      ensures Get(settings, key) == !Get(old(settings), key)
      ensures forall other :: other != key ==> Get(settings, other) == Get(old(settings), other)
    {
      settings := Flip(settings, key);
    }
  }

  /** Two changes of the same switch leave the page as it started. */
  method ToggleTwiceScenario(key: SettingKey)
  {
    var page := new SettingsPage();
    page.HandleSettingChange(key);
    page.HandleSettingChange(key);
    FlipTwice(SettingsRecord(true, false, false, true, true), key);
    assert page.settings == SettingsRecord(true, false, false, true, true);
  }
}
