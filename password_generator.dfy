/**
 * Password generator (Password-generator/password-gen.js): the
 * `PasswordGenerator` class with its settings, statistics, current password
 * and saved history. The random words that `crypto.getRandomValues` fills in
 * are a parameter of the generating method.
 */
module PasswordGen {
  import opened Common
  import opened JsString
  import Lists

  /** An element of the `Uint32Array` of random words. */
  type Word32 = x: int | 0 <= x < 0x1_0000_0000

  const Uppercase: string := "ABCDEFGHIJKLMNOPQRSTUVWXYZ"
  const Lowercase: string := "abcdefghijklmnopqrstuvwxyz"
  const Numbers: string := "0123456789"
  const Symbols: string := "!@#$%^&*()_+-=[]{}|;:,.<>?"

  const MaxHistory: nat := 50
  const DefaultLength: nat := 16

  /** The four toggles of `updateSetting`. */
  datatype CharSet = UppercaseSet | LowercaseSet | NumbersSet | SymbolsSet

  datatype Settings = Settings(length: nat, uppercase: bool, lowercase: bool,
                               numbers: bool, symbols: bool, theme: string)
  {
    predicate AnySetEnabled() {
      uppercase || lowercase || numbers || symbols
    }

    function With(key: CharSet, value: bool): Settings {
      match key
      case UppercaseSet => this.(uppercase := value)
      case LowercaseSet => this.(lowercase := value)
      case NumbersSet => this.(numbers := value)
      case SymbolsSet => this.(symbols := value)
    }
  }

  const DefaultSettings: Settings := Settings(DefaultLength, true, true, true, true, "dark")

  datatype Stats = Stats(generated: nat, copied: nat, saved: nat, strengthSum: real)

  /** A history entry; its timestamp is not modelled. */
  datatype SavedPassword = SavedPassword(id: int, password: string, length: nat,
                                         strength: string, settings: Settings)

  // ---------------------------------------------------------------------------
  // Character pool

  /** The enabled sets concatenated in the order upper, lower, numbers,
      symbols. */
  function Pool(s: Settings): string {
    (if s.uppercase then Uppercase else "")
    + (if s.lowercase then Lowercase else "")
    + (if s.numbers then Numbers else "")
    + (if s.symbols then Symbols else "")
  }

  /** A character is in the pool exactly when it belongs to an enabled set,
      and the pool is empty exactly when no set is enabled. */
  lemma PoolMembers(s: Settings, c: char)
    ensures c in Pool(s) <==>
              (s.uppercase && c in Uppercase) || (s.lowercase && c in Lowercase)
              || (s.numbers && c in Numbers) || (s.symbols && c in Symbols)
    ensures Pool(s) == [] <==> !s.AnySetEnabled()
  {
  }

  // ---------------------------------------------------------------------------
  // Strength

  function LengthBonus(n: nat): nat {
    if n >= 20 then 3 else if n >= 16 then 2 else if n >= 12 then 1 else 0
  }

  predicate IsUpper(c: char) { 'A' <= c <= 'Z' }
  predicate IsLower(c: char) { 'a' <= c <= 'z' }
  predicate IsAsciiDigit(c: char) { '0' <= c <= '9' }
  predicate IsOther(c: char) { !IsUpper(c) && !IsLower(c) && !IsAsciiDigit(c) }

  predicate HasChar(p: string, inClass: char -> bool) {
    exists i :: 0 <= i < |p| && inClass(p[i])
  }

  function Indicator(b: bool): nat { if b then 1 else 0 }

  /** `new Set(password).size` */
  function DistinctCount(p: string): nat {
    |set i | 0 <= i < |p| :: p[i]|
  }

  /** The score before clamping: the length bonus, one point per character
      class present, and one point off when fewer than half the characters
      are distinct. */
  function RawScore(p: string): int {
    LengthBonus(|p|)
    + Indicator(HasChar(p, IsUpper)) + Indicator(HasChar(p, IsLower))
    + Indicator(HasChar(p, IsAsciiDigit)) + Indicator(HasChar(p, IsOther))
    - Indicator(2 * DistinctCount(p) < |p|)
  }

  /** `Math.max(0, Math.min(7, score))` */
  function StrengthScore(p: string): (score: int)
    ensures 0 <= score <= 7
    ensures 0 <= RawScore(p) <= 7 ==> score == RawScore(p)
  {
    Max(0, Min(7, RawScore(p)))
  }

  /** The clamp never bites: a password scores at most 3 for length and 4 for
      classes, and a non-empty one has a class to make up for the repetition
      penalty. */
  lemma RawScoreInRange(p: string)
    ensures 0 <= RawScore(p) <= 7
    ensures StrengthScore(p) == RawScore(p)
  {
    if p != [] {
      assert IsUpper(p[0]) || IsLower(p[0]) || IsAsciiDigit(p[0]) || IsOther(p[0]);
    }
  }

  /** `(score / 7) * 100`, at most 100. */
  function Percentage(score: int): (pct: real)
    ensures pct <= 100.0
    ensures 0 <= score ==> 0.0 <= pct
  {
    var pct := score as real / 7.0 * 100.0;
    if pct < 100.0 then pct else 100.0
  }

  datatype Strength = VeryStrong | Strong | Medium | Weak
  {
    function Text(): string {
      match this
      case VeryStrong => "Very Strong"
      case Strong => "Strong"
      case Medium => "Medium"
      case Weak => "Weak"
    }
  }

  /** The label chosen by the percentage thresholds of `updateStrengthMeter`. */
  function LabelOf(pct: real): Strength {
    if pct >= 85.0 then VeryStrong
    else if pct >= 70.0 then Strong
    else if pct >= 50.0 then Medium
    else Weak
  }

  /** On the scores 0..7 the percentage thresholds are the score thresholds
      6, 5 and 4, and the percentage stays within 0..100. */
  lemma LabelByScore(score: int)
    requires 0 <= score <= 7
    ensures LabelOf(Percentage(score)) ==
              if score >= 6 then VeryStrong
              else if score >= 5 then Strong
              else if score >= 4 then Medium
              else Weak
    ensures 0.0 <= Percentage(score) <= 100.0
  {
  }

  /** The colour class of a lowercased strength text. */
  function ColorFor(key: string): string {
    if key == "very strong" then "text-emerald-400"
    else if key == "strong" then "text-emerald-300"
    else if key == "medium" then "text-amber-400"
    else if key == "weak" then "text-red-400"
    else "text-gray-400"
  }

  /** `getStrengthColor`: the text colour of a history entry's strength. */
  function StrengthColor(strength: string): string {
    ColorFor(ToLower(strength))
  }

  /** The colour lookup ignores letter case. */
  lemma StrengthColorIgnoresCase(strength: string)
    ensures StrengthColor(ToUpper(strength)) == StrengthColor(strength)
    ensures StrengthColor(ToLower(strength)) == StrengthColor(strength)
  {
    LowerOfUpper(strength);
  }

  /** `Math.round` */
  function Round(x: real): int {
    (x + 0.5).Floor
  }

  /** The average strength of `updateStats`. */
  function AverageStrength(stats: Stats): int {
    if stats.generated > 0 then Round(stats.strengthSum / stats.generated as real) else 0
  }

  /** The average is 0 before the first generation and a percentage after. */
  lemma AverageStrengthRange(stats: Stats)
    requires 0.0 <= stats.strengthSum <= 100.0 * stats.generated as real
    ensures stats.generated == 0 ==> AverageStrength(stats) == 0
    ensures 0 <= AverageStrength(stats) <= 100
  {
    if stats.generated > 0 {
      var n := stats.generated as real;
      var avg := stats.strengthSum / n;
      assert 0.0 <= avg <= 100.0 by {
        assert avg * n == stats.strengthSum;
      }
    }
  }

  // ---------------------------------------------------------------------------
  // The generator

  class PasswordGenerator {
    var settings: Settings
    var stats: Stats
    var history: seq<SavedPassword>
    var currentPassword: string
    /** The label shown by the strength meter. */
    var strengthText: string

    ghost predicate Valid()
      reads this
    {
      && |history| <= MaxHistory
      && (forall k :: 0 <= k < |history| ==> history[k].password != "")
      && 0.0 <= stats.strengthSum <= 100.0 * stats.generated as real
    }

    /** The defaults of `initElements` followed by a first generation. */
    constructor (random: seq<Word32>)
      requires |random| == DefaultLength
      ensures Valid()
      ensures settings == DefaultSettings && history == []
      ensures stats.generated == 1 && stats.copied == 0 && stats.saved == 0
      ensures |currentPassword| == DefaultLength
      ensures Pool(DefaultSettings) != []
      ensures forall i :: 0 <= i < DefaultLength ==>
                currentPassword[i] == Pool(DefaultSettings)[random[i] % |Pool(DefaultSettings)|]
      ensures strengthText == LabelOf(Percentage(StrengthScore(currentPassword))).Text()
      ensures stats.strengthSum == Percentage(StrengthScore(currentPassword))
    {
      settings := DefaultSettings;
      stats := Stats(0, 0, 0, 0.0);
      history := [];
      currentPassword := "";
      strengthText := "";
      new;
      GeneratePassword(random);
    }

    /** `updateLength` */
    method UpdateLength(length: nat)
      modifies this
      ensures settings == old(settings).(length := length)
      ensures stats == old(stats) && history == old(history)
      ensures currentPassword == old(currentPassword) && strengthText == old(strengthText)
    {
      settings := settings.(length := length);
    }

    /** `updateSetting`: switching the last set off turns lowercase back on. */
    method UpdateSetting(key: CharSet, value: bool)
      modifies this
      ensures var s := old(settings).With(key, value);
              settings == if s.AnySetEnabled() then s else s.(lowercase := true)
      ensures settings.AnySetEnabled()
      ensures stats == old(stats) && history == old(history)
      ensures currentPassword == old(currentPassword) && strengthText == old(strengthText)
    {
      settings := settings.With(key, value);
      if !settings.uppercase && !settings.lowercase && !settings.numbers && !settings.symbols {
        settings := settings.(lowercase := true);
      }
    }

    /** `generatePassword`: character i is the pool character the i-th
        random word selects modulo the pool size; an empty pool falls back
        to lowercase and switches lowercase on. */
    method GeneratePassword(random: seq<Word32>)
      requires Valid()
      requires |random| == settings.length
      modifies this
      ensures Valid()
      ensures settings == if old(settings).AnySetEnabled() then old(settings)
                          else old(settings).(lowercase := true)
      ensures Pool(settings) != []
      ensures |currentPassword| == settings.length
      ensures forall i :: 0 <= i < |currentPassword| ==>
                currentPassword[i] == Pool(settings)[random[i] % |Pool(settings)|]
      ensures strengthText == LabelOf(Percentage(StrengthScore(currentPassword))).Text()
      ensures stats == old(stats).(generated := old(stats).generated + 1,
                                   strengthSum := old(stats).strengthSum + Percentage(StrengthScore(currentPassword)))
      ensures history == old(history)
    {
      var characters := Pool(settings);
      if |characters| == 0 {
        characters := Lowercase;
        settings := settings.(lowercase := true);
        assert characters == Pool(settings);
      }

      var password := "";
      var i := 0;
      while i < settings.length
        invariant 0 <= i <= settings.length
        invariant |password| == i
        invariant forall j :: 0 <= j < i ==> password[j] == characters[random[j] % |characters|]
      {
        password := password + [characters[random[i] % |characters|]];
        i := i + 1;
      }
      currentPassword := password;

      var percentage := Percentage(StrengthScore(password));
      strengthText := LabelOf(percentage).Text();
      stats := stats.(strengthSum := stats.strengthSum + percentage);
      stats := stats.(generated := stats.generated + 1);
    }

    /** `copyPassword`: counts a copy once the clipboard accepted it. */
    method CopyPassword(clipboardOk: bool)
      modifies this
      ensures stats == if currentPassword != "" && clipboardOk
                       then old(stats).(copied := old(stats).copied + 1) else old(stats)
      ensures settings == old(settings) && history == old(history)
      ensures currentPassword == old(currentPassword) && strengthText == old(strengthText)
    {
      if currentPassword == "" {
        return;
      }
      if clipboardOk {
        stats := stats.(copied := stats.copied + 1);
      }
    }

    /** `savePassword`: the current password goes first in the history,
        which keeps at most 50 entries. */
    method SavePassword(id: int)
      requires Valid()
      modifies this
      ensures Valid()
      ensures old(currentPassword) == "" ==> history == old(history) && stats == old(stats)
      ensures old(currentPassword) != "" ==>
                && history == Lists.PushFrontCapped(old(history),
                     SavedPassword(id, currentPassword, |currentPassword|, strengthText, settings), MaxHistory)
                && stats == old(stats).(saved := old(stats).saved + 1)
      ensures settings == old(settings)
      ensures currentPassword == old(currentPassword) && strengthText == old(strengthText)
    {
      if currentPassword == "" {
        return;
      }
      var entry := SavedPassword(id, currentPassword, |currentPassword|, strengthText, settings);
      history := [entry] + history;
      if |history| > MaxHistory {
        history := history[..|history| - 1];
      }
      stats := stats.(saved := stats.saved + 1);
    }

    /** `deleteHistoryItem` */
    method DeleteHistoryItem(id: int)
      requires Valid()
      modifies this
      ensures Valid()
      ensures history == Lists.Filter(old(history), (e: SavedPassword) => e.id != id)
      ensures settings == old(settings) && stats == old(stats)
      ensures currentPassword == old(currentPassword) && strengthText == old(strengthText)
    {
      var keep := (e: SavedPassword) => e.id != id;
      history := Lists.Filter(history, keep);
      forall k | 0 <= k < |history| ensures history[k].password != "" {
        Lists.FilterMembers(old(history), keep, history[k]);
      }
    }

    /** `clearHistoryConfirm`: `confirmed` is the answer to the dialog. */
    method ClearHistoryConfirm(confirmed: bool)
      requires Valid()
      modifies this
      ensures Valid()
      ensures history == if old(history) != [] && confirmed then [] else old(history)
      ensures settings == old(settings) && stats == old(stats)
      ensures currentPassword == old(currentPassword) && strengthText == old(strengthText)
    {
      if |history| == 0 {
        return;
      }
      if confirmed {
        history := [];
      }
    }
  }

  // ---------------------------------------------------------------------------
  // Properties of the history and of generated passwords

  /** Saving puts the entry first, keeps the older entries in order with at
      most the oldest dropped, and never exceeds 50 entries. */
  lemma SaveKeepsNewestFirst(h: seq<SavedPassword>, entry: SavedPassword)
    requires |h| <= MaxHistory
    ensures var r := Lists.PushFrontCapped(h, entry, MaxHistory);
            && |r| <= MaxHistory && r[0] == entry
            && r[1..] == h[..|r| - 1]
  {
    Lists.PushFrontCappedSpec(h, entry, MaxHistory);
  }

  /** Deleting removes exactly the entries with the id and keeps the others,
      in order. */
  lemma DeleteRemovesExactly(h: seq<SavedPassword>, id: int, e: SavedPassword)
    ensures var r := Lists.Filter(h, (x: SavedPassword) => x.id != id);
            e in r <==> e in h && e.id != id
    ensures forall h2: seq<SavedPassword> ::
              Lists.Filter(h + h2, (x: SavedPassword) => x.id != id)
              == Lists.Filter(h, (x: SavedPassword) => x.id != id) + Lists.Filter(h2, (x: SavedPassword) => x.id != id)
  {
    var keep := (x: SavedPassword) => x.id != id;
    Lists.FilterMembers(h, keep, e);
    forall h2: seq<SavedPassword> ensures Lists.Filter(h + h2, keep) == Lists.Filter(h, keep) + Lists.Filter(h2, keep) {
      Lists.FilterAppend(h, h2, keep);
    }
  }

  /** Every character of a generated password belongs to a set that is
      enabled in the settings it was generated with. */
  lemma GeneratedFromEnabledSets(s: Settings, password: string, random: seq<Word32>)
    requires Pool(s) != []
    requires |password| == |random|
    requires forall i :: 0 <= i < |password| ==> password[i] == Pool(s)[random[i] % |Pool(s)|]
    ensures forall i :: 0 <= i < |password| ==>
              (s.uppercase && password[i] in Uppercase) || (s.lowercase && password[i] in Lowercase)
              || (s.numbers && password[i] in Numbers) || (s.symbols && password[i] in Symbols)
  {
    forall i | 0 <= i < |password|
      ensures (s.uppercase && password[i] in Uppercase) || (s.lowercase && password[i] in Lowercase)
              || (s.numbers && password[i] in Numbers) || (s.symbols && password[i] in Symbols)
    {
      assert password[i] in Pool(s);
      PoolMembers(s, password[i]);
    }
  }
}
