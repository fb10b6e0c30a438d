/** The sidebar tab switches of the admin page: the fixed set of tab keys,
    how a flag is stored and read back, and the display name used in the
    save messages. */
module SidebarTabs {

  /** The keys of `SidebarTabs`, in declaration order. */
  datatype Tab =
    | Hub | Home | Workflow | Dataset | YourWork | Projects
    | Workflows | Datasets | Quota | Forum | About

  const AllTabs: seq<Tab> :=
    [Hub, Home, Workflow, Dataset, YourWork, Projects, Workflows, Datasets, Quota, Forum, About]

  /** The setting key of a tab. */
  function Key(t: Tab): string
  {
    match t
    case Hub => "hub_enabled"
    case Home => "home_enabled"
    case Workflow => "workflow_enabled"
    case Dataset => "dataset_enabled"
    case YourWork => "your_work_enabled"
    case Projects => "projects_enabled"
    case Workflows => "workflows_enabled"
    case Datasets => "datasets_enabled"
    case Quota => "quota_enabled"
    case Forum => "forum_enabled"
    case About => "about_enabled"
  }

  /** The position of a tab in `AllTabs`. */
  function Position(t: Tab): (i: nat)
    ensures i < |AllTabs| && AllTabs[i] == t
  {
    match t
    case Hub => 0
    case Home => 1
    case Workflow => 2
    case Dataset => 3
    case YourWork => 4
    case Projects => 5
    case Workflows => 6
    case Datasets => 7
    case Quota => 8
    case Forum => 9
    case About => 10
  }

  /** Every tab is listed, and listed once. */
  lemma TabsListedOnce()
    ensures forall t: Tab :: t in AllTabs
    ensures forall i :: 0 <= i < |AllTabs| ==> Position(AllTabs[i]) == i
  {
    forall t: Tab
      ensures t in AllTabs
    {
      assert AllTabs[Position(t)] == t;
    }
  }

  lemma KeyInjective(t: Tab, u: Tab)
    ensures Key(t) == Key(u) ==> t == u
  {
    if t != u {
      assert |Key(t)| != |Key(u)| || Key(t)[0] != Key(u)[0];
    }
  }

  // ---------------------------------------------------------------------
  // Flags

  /** `value === "true"`: on for exactly the four characters `t`, `r`,
      `u`, `e`; any other string, other letter case included, reads as off. */
  function DecodeFlag(value: string): (r: bool)
    ensures r <==> |value| == 4 && value[0] == 't' && value[1] == 'r' && value[2] == 'u' && value[3] == 'e'
  {
    value == "true"
  }

  /** `flag.toString()`: the stored string reads back as the same flag. */
  function EncodeFlag(b: bool): (r: string)
    ensures |r| == 4 || |r| == 5
    ensures DecodeFlag(r) == b
  {
    if b then "true"
    else
      assert "false"[0] == 'f';
      "false"
  }

  /** The stored settings, key to string value. */
  type Store = map<string, string>

  /** The switches shown on the page. */
  type Flags = map<Tab, bool>

  predicate HasAllTabs(flags: Flags)
  {
    forall t: Tab :: t in flags
  }

  /** `saveTabs(tab)`: store the switch of one tab. */
  function SaveTab(store: Store, flags: Flags, tab: Tab): (r: Store)
    requires tab in flags
    ensures Key(tab) in r && DecodeFlag(r[Key(tab)]) == flags[tab]
    ensures forall k :: k in store && k != Key(tab) ==> k in r && r[k] == store[k]
  {
    store[Key(tab) := EncodeFlag(flags[tab])]
  }

  /** Save the given tabs one after the other. */
  function SaveTabs(store: Store, flags: Flags, tabs: seq<Tab>): Store
    requires forall i :: 0 <= i < |tabs| ==> tabs[i] in flags
    decreases |tabs|
  {
    if |tabs| == 0 then store else SaveTabs(SaveTab(store, flags, tabs[0]), flags, tabs[1..])
  }

  /** The read of one tab in `loadTabs`; an absent key reads as
      `undefined`, which is not `"true"`. */
  function LoadTab(store: Store, tab: Tab): bool
  {
    Key(tab) in store && DecodeFlag(store[Key(tab)])
  }

  /** `loadTabs`: every switch set from its stored value, on exactly when
      its key is stored as `"true"`. */
  function LoadTabs(store: Store, flags: Flags): (r: Flags)
    ensures r.Keys == flags.Keys
    ensures forall t :: t in r ==> (r[t] <==> Key(t) in store && store[Key(t)] == "true")
  {
    map t | t in flags :: LoadTab(store, t)
  }

  /** Saving one tab and loading gives that tab's switch back and leaves
      every other tab reading as before. */
  lemma SaveTabRoundTrip(store: Store, flags: Flags, tab: Tab)
    requires tab in flags
    ensures LoadTab(SaveTab(store, flags, tab), tab) == flags[tab]
    ensures forall u :: u != tab ==> LoadTab(SaveTab(store, flags, tab), u) == LoadTab(store, u)
  {
    forall u | u != tab
      ensures LoadTab(SaveTab(store, flags, tab), u) == LoadTab(store, u)
    {
      KeyInjective(u, tab);
    }
  }

  /** Saving a list of tabs: the listed ones read back as saved, the others
      as before. */
  lemma {:induction false} SaveTabsReadBack(store: Store, flags: Flags, tabs: seq<Tab>, u: Tab)
    requires forall i :: 0 <= i < |tabs| ==> tabs[i] in flags
    ensures u in tabs ==> u in flags && LoadTab(SaveTabs(store, flags, tabs), u) == flags[u]
    ensures u !in tabs ==> LoadTab(SaveTabs(store, flags, tabs), u) == LoadTab(store, u)
    decreases |tabs|
  {
    if |tabs| > 0 {
      var next := SaveTab(store, flags, tabs[0]);
      SaveTabsReadBack(next, flags, tabs[1..], u);
      SaveTabRoundTrip(store, flags, tabs[0]);
      assert u in tabs <==> u == tabs[0] || u in tabs[1..];
    }
  }

  /** Saving a list that covers every tab, then reloading the page, shows
      the same switches. */
  lemma SaveCoveringTabsRoundTrip(store: Store, flags: Flags, tabs: seq<Tab>)
    requires HasAllTabs(flags)
    requires forall t: Tab :: t in tabs
    ensures LoadTabs(SaveTabs(store, flags, tabs), flags) == flags
  {
    var r := LoadTabs(SaveTabs(store, flags, tabs), flags);
    forall t | t in flags
      ensures r[t] == flags[t]
    {
      SaveTabsReadBack(store, flags, tabs, t);
    }
  }

  /** Saving every tab in `AllTabs` order round-trips. */
  lemma SaveAllTabsRoundTrip(store: Store, flags: Flags)
    requires HasAllTabs(flags)
    ensures LoadTabs(SaveTabs(store, flags, AllTabs), flags) == flags
  {
    TabsListedOnce();
    SaveCoveringTabsRoundTrip(store, flags, AllTabs);
  }

  // ---------------------------------------------------------------------
  // Display name

  predicate OccursAt(s: string, pat: string, i: int)
  {
    0 <= i && i + |pat| <= |s| && s[i..i + |pat|] == pat
  }

  /** `s.indexOf(pat)`: the first position of `pat` in `s`, or -1. */
  function IndexOf(s: string, pat: string): (r: int)
    ensures r == -1 || OccursAt(s, pat, r)
    ensures forall j :: 0 <= j < (if r == -1 then |s| + 1 else r) ==> !OccursAt(s, pat, j)
    decreases |s|
  {
    if OccursAt(s, pat, 0) then 0
    else if |s| == 0 then -1
    else
      var k := IndexOf(s[1..], pat);
      assert forall j :: 1 <= j <= |s| && OccursAt(s, pat, j) ==> OccursAt(s[1..], pat, j - 1) by {
        forall j | 1 <= j <= |s| && OccursAt(s, pat, j)
          ensures OccursAt(s[1..], pat, j - 1)
        {
          assert s[1..][j - 1..j - 1 + |pat|] == s[j..j + |pat|];
        }
      }
      if k == -1 then -1
      else
        assert s[1..][k..k + |pat|] == s[k + 1..k + 1 + |pat|];
        k + 1
  }

  /** `s.replace(pat, rep)` with a string pattern: the first occurrence
      only. */
  function ReplaceFirst(s: string, pat: string, rep: string): (r: string)
    ensures IndexOf(s, pat) == -1 ==> r == s
    ensures IndexOf(s, pat) >= 0 ==>
      var i := IndexOf(s, pat);
      r == s[..i] + rep + s[i + |pat|..]
  {
    var i := IndexOf(s, pat);
    if i == -1 then s else s[..i] + rep + s[i + |pat|..]
  }

  /** The first position of `c` in `s`, or `|s|`. */
  function FirstIndexOf(s: string, c: char): (r: nat)
    ensures r <= |s|
    ensures r < |s| ==> s[r] == c
    ensures forall j :: 0 <= j < r ==> s[j] != c
    decreases |s|
  {
    if |s| == 0 then 0
    else if s[0] == c then 0
    else 1 + FirstIndexOf(s[1..], c)
  }

  /** `s.split(sep)` for a one-character separator: the pieces between the
      separators, empty ones included. */
  function Split(s: string, sep: char): (r: seq<string>)
    ensures |r| >= 1
    ensures forall i :: 0 <= i < |r| ==> sep !in r[i]
    decreases |s|
  {
    var k := FirstIndexOf(s, sep);
    if k == |s| then [s]
    else [s[..k]] + Split(s[k + 1..], sep)
  }

  /** `words.join(sep)`. */
  function Join(words: seq<string>, sep: char): string
    decreases |words|
  {
    if |words| == 0 then ""
    else if |words| == 1 then words[0]
    else words[0] + [sep] + Join(words[1..], sep)
  }

  /** Splitting at the first separator. */
  lemma SplitAtFirst(s: string, sep: char, k: nat)
    requires k < |s| && s[k] == sep
    requires forall j :: 0 <= j < k ==> s[j] != sep
    ensures FirstIndexOf(s, sep) == k
    ensures Split(s, sep) == [s[..k]] + Split(s[k + 1..], sep)
  {
  }

  lemma JoinCons(word: string, words: seq<string>, sep: char)
    requires |words| >= 1
    ensures Join([word] + words, sep) == word + [sep] + Join(words, sep)
  {
    assert ([word] + words)[1..] == words;
  }

  /** Joining the pieces of a split gives the string back. */
  lemma {:induction false} JoinSplit(s: string, sep: char)
    ensures Join(Split(s, sep), sep) == s
    decreases |s|
  {
    var k := FirstIndexOf(s, sep);
    if k < |s| {
      var rest := Split(s[k + 1..], sep);
      SplitAtFirst(s, sep, k);
      JoinSplit(s[k + 1..], sep);
      JoinCons(s[..k], rest, sep);
      assert s == s[..k] + [sep] + s[k + 1..];
    }
  }

  /** Splitting a join of separator-free words gives the words back. */
  lemma {:induction false} SplitJoin(words: seq<string>, sep: char)
    requires |words| >= 1
    requires forall i :: 0 <= i < |words| ==> sep !in words[i]
    ensures Split(Join(words, sep), sep) == words
    decreases |words|
  {
    var w := words[0];
    assert forall j :: 0 <= j < |w| ==> w[j] in w;
    if |words| > 1 {
      var rest := Join(words[1..], sep);
      var s := w + [sep] + rest;
      JoinCons(w, words[1..], sep);
      assert words == [w] + words[1..];
      assert s[..|w|] == w;
      assert s[|w| + 1..] == rest;
      SplitAtFirst(s, sep, |w|);
      SplitJoin(words[1..], sep);
    }
  }

  /** `c.toUpperCase()` for ASCII letters. */
  function ToUpper(c: char): (r: char)
    ensures 'a' <= c <= 'z' ==> 'A' <= r <= 'Z'
    ensures !('a' <= c <= 'z') ==> r == c
  {
    if 'a' <= c <= 'z' then (c as int - 'a' as int + 'A' as int) as char else c
  }

  /** `word.charAt(0).toUpperCase() + word.slice(1)`. */
  function Capitalize(word: string): (r: string)
    ensures |r| == |word|
    ensures |word| > 0 ==> r[0] == ToUpper(word[0]) && r[1..] == word[1..]
  {
    if |word| == 0 then word else [ToUpper(word[0])] + word[1..]
  }

  function CapitalizeAll(words: seq<string>): (r: seq<string>)
    ensures |r| == |words|
    ensures forall i :: 0 <= i < |words| ==> r[i] == Capitalize(words[i])
    decreases |words|
  {
    if |words| == 0 then [] else [Capitalize(words[0])] + CapitalizeAll(words[1..])
  }

  /** The display name of a tab key in `saveTabs`: character by character,
      the key with its first `_enabled` removed, each `_` a space and the
      start of each word upper-cased (see `IsTitleCase`). */
  function DisplayName(key: string): (r: string)
    ensures IsTitleCase(ReplaceFirst(key, "_enabled", ""), r)
  {
    TitleCaseOfSplit(ReplaceFirst(key, "_enabled", ""));
    Join(CapitalizeAll(Split(ReplaceFirst(key, "_enabled", ""), '_')), ' ')
  }

  /** An independent, character-by-character reading of the transform on
      the key with `_enabled` removed: every `_` becomes a space and the
      character at the start or after a `_` is upper-cased. */
  function TitleChar(s: string, i: nat): char
    requires i < |s|
  {
    if s[i] == '_' then ' '
    else if i == 0 || s[i - 1] == '_' then ToUpper(s[i])
    else s[i]
  }

  predicate IsTitleCase(s: string, r: string)
  {
    |r| == |s| && forall i :: 0 <= i < |s| ==> r[i] == TitleChar(s, i)
  }

  /** The characters of the first word, upper-cased at its start. */
  lemma TitleCaseHead(s: string, k: nat, r: string)
    requires k <= |s| && k <= |r|
    requires forall j :: 0 <= j < k ==> s[j] != '_'
    requires r[..k] == Capitalize(s[..k])
    ensures forall i :: 0 <= i < k ==> r[i] == TitleChar(s, i)
  {
    forall i | 0 <= i < k
      ensures r[i] == TitleChar(s, i)
    {
      assert r[i] == r[..k][i];
      assert s[..k][i] == s[i];
      if i > 0 {
        assert Capitalize(s[..k])[i] == s[..k][1..][i - 1];
      }
    }
  }

  /** After the first `_`, the rest reads as its own title case. */
  lemma TitleCaseTail(s: string, k: nat, r: string)
    requires k < |s| && s[k] == '_' && |r| == |s|
    requires IsTitleCase(s[k + 1..], r[k + 1..])
    ensures forall i :: k < i < |s| ==> r[i] == TitleChar(s, i)
  {
    var tail := s[k + 1..];
    forall i | k < i < |s|
      ensures r[i] == TitleChar(s, i)
    {
      assert r[i] == r[k + 1..][i - k - 1];
      assert tail[i - k - 1] == s[i];
      if i - k - 1 > 0 {
        assert tail[i - k - 2] == s[i - 1];
      }
    }
  }

  lemma {:induction false} TitleCaseOfSplit(s: string)
    ensures IsTitleCase(s, Join(CapitalizeAll(Split(s, '_')), ' '))
    decreases |s|
  {
    var k := FirstIndexOf(s, '_');
    var r := Join(CapitalizeAll(Split(s, '_')), ' ');
    if k == |s| {
      assert Split(s, '_') == [s];
      assert CapitalizeAll([s]) == [Capitalize(s)];
      assert r == Capitalize(s);
      TitleCaseHead(s, k, r);
    } else {
      var tail := s[k + 1..];
      var rest := Split(tail, '_');
      var restName := Join(CapitalizeAll(rest), ' ');
      TitleCaseOfSplit(tail);
      SplitAtFirst(s, '_', k);
      var head := Capitalize(s[..k]);
      assert CapitalizeAll([s[..k]] + rest) == [head] + CapitalizeAll(rest);
      JoinCons(head, CapitalizeAll(rest), ' ');
      assert r == head + [' '] + restName;
      assert r[..k] == head;
      assert r[k + 1..] == restName;
      TitleCaseHead(s, k, r);
      TitleCaseTail(s, k, r);
    }
  }

  /** `_enabled` first occurs at the end of `your_work_enabled`. */
  lemma YourWorkBase(key: string, pat: string)
    requires key == Key(YourWork) && pat == "_enabled"
    ensures ReplaceFirst(key, pat, "") == key[..9]
  {
    assert OccursAt(key, pat, 9);
    forall j | 0 <= j < 9
      ensures !OccursAt(key, pat, j)
    {
      if j == 4 {
        assert key[j..j + 8][1] != pat[1];
      } else {
        assert j < 4 || 4 < j;
        assert key[j..j + 8][0] == key[j] != '_';
      }
    }
    assert IndexOf(key, pat) == 9;
  }

  /** The character-by-character reading fixes the result. */
  lemma TitleCaseUnique(s: string, r: string, r': string)
    requires IsTitleCase(s, r) && IsTitleCase(s, r')
    ensures r == r'
  {
    forall i | 0 <= i < |s|
      ensures r[i] == r'[i]
    {
      assert r[i] == TitleChar(s, i) == r'[i];
    }
  }

  /** The display name of a key is the one string matching the
      character-by-character reading of its base. */
  lemma DisplayNameOf(key: string, base: string, name: string)
    requires ReplaceFirst(key, "_enabled", "") == base
    requires IsTitleCase(base, name)
    ensures DisplayName(key) == name
  {
    TitleCaseUnique(base, DisplayName(key), name);
  }

  lemma YourWorkTitle(base: string, name: string)
    requires base == Key(YourWork)[..9] && name == "Your Work"
    ensures IsTitleCase(base, name)
  {
    forall i | 0 <= i < |base|
      ensures name[i] == TitleChar(base, i)
    {
      if i == 0 || i == 5 {
        assert ToUpper(base[i]) == name[i];
      }
    }
  }

  /** `your_work_enabled` is shown as `Your Work`. */
  lemma YourWorkDisplayName(key: string)
    requires key == Key(YourWork)
    ensures DisplayName(key) == "Your Work"
  {
    YourWorkBase(key, "_enabled");
    YourWorkTitle(key[..9], "Your Work");
    DisplayNameOf(key, key[..9], "Your Work");
  }
}
