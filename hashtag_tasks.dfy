/** The background task that turns the hashtags written in the labels of a
    labelbase into Hashtag rows: every `#word` in a label's text becomes a
    Hashtag named `word` of that labelbase, unless the labelbase already has
    one of that name. */
module HashtagTasks {
  import opened Text

  /** A label as the task reads it: its labelbase and its text. */
  datatype LabelText = LabelText(labelbaseId: int, text: string)

  /** A row of the Hashtag table. */
  datatype Hashtag = Hashtag(labelbaseId: int, name: string, description: string)

  /** The name of a tag `#word`: the word (the group of `#(\w+)`). */
  function TagName(tag: string): (name: string)
    requires IsHashtag(tag)
    ensures |name| >= 1 && forall k :: 0 <= k < |name| ==> IsWordChar(name[k])
    ensures tag == "#" + name
  {
    tag[1..]
  }

  /** The names of a list of tags, in order. */
  function TagNames(tags: seq<string>): (names: seq<string>)
    requires forall t :: t in tags ==> IsHashtag(t)
    ensures |names| == |tags|
    ensures forall k :: 0 <= k < |tags| ==> names[k] == TagName(tags[k])
  {
    if tags == [] then [] else TagNames(tags[..|tags| - 1]) + [TagName(tags[|tags| - 1])]
  }

  /** The names of the hashtags in the labels of the labelbase, label by label. */
  function NamesIn(labels: seq<LabelText>, labelbaseId: int): seq<string> {
    if labels == [] then []
    else
      var last := labels[|labels| - 1];
      NamesIn(labels[..|labels| - 1], labelbaseId)
        + (if last.labelbaseId == labelbaseId then TagNames(FindHashtags(last.text)) else [])
  }

  /** The labelbase has a Hashtag of that name. */
  predicate HasTag(hashtags: seq<Hashtag>, labelbaseId: int, name: string) {
    exists i :: 0 <= i < |hashtags| && hashtags[i].labelbaseId == labelbaseId && hashtags[i].name == name
  }

  /** One tag of the task: a new Hashtag of the name, added last, when the
      labelbase has none of that name. */
  function Insert(hashtags: seq<Hashtag>, labelbaseId: int, name: string): seq<Hashtag> {
    if HasTag(hashtags, labelbaseId, name) then hashtags
    else hashtags + [Hashtag(labelbaseId, name, "")]
  }

  /** The tags in turn. */
  function InsertAll(hashtags: seq<Hashtag>, labelbaseId: int, names: seq<string>): seq<Hashtag> {
    if names == [] then hashtags
    else Insert(InsertAll(hashtags, labelbaseId, names[..|names| - 1]), labelbaseId, names[|names| - 1])
  }

  /** Inserting two lists of names is inserting their concatenation. */
  lemma {:induction false} InsertAllAppend(hashtags: seq<Hashtag>, labelbaseId: int, names: seq<string>, more: seq<string>)
    ensures InsertAll(InsertAll(hashtags, labelbaseId, names), labelbaseId, more)
      == InsertAll(hashtags, labelbaseId, names + more)
  {
    if more == [] {
      assert names + more == names;
    } else {
      InsertAllAppend(hashtags, labelbaseId, names, more[..|more| - 1]);
      assert (names + more)[..|names + more| - 1] == names + more[..|more| - 1];
    }
  }

  /** The existing rows stay as they were, in their places: no Hashtag is
      changed or removed, in this labelbase or any other. */
  lemma {:induction false} InsertAllKeeps(hashtags: seq<Hashtag>, labelbaseId: int, names: seq<string>)
    ensures var after := InsertAll(hashtags, labelbaseId, names);
      |hashtags| <= |after| && after[..|hashtags|] == hashtags
  {
    if names != [] {
      var before := InsertAll(hashtags, labelbaseId, names[..|names| - 1]);
      InsertAllKeeps(hashtags, labelbaseId, names[..|names| - 1]);
      var after := Insert(before, labelbaseId, names[|names| - 1]);
      assert after[..|before|] == before;
      assert after[..|hashtags|] == before[..|hashtags|];
    }
  }

  /** Every row added belongs to the labelbase and carries one of the names. */
  lemma {:induction false} InsertAllAddsOnlyNames(hashtags: seq<Hashtag>, labelbaseId: int, names: seq<string>)
    ensures var after := InsertAll(hashtags, labelbaseId, names);
      |hashtags| <= |after|
      && forall i :: |hashtags| <= i < |after| ==> after[i].labelbaseId == labelbaseId && after[i].name in names
  {
    InsertAllKeeps(hashtags, labelbaseId, names);
    if names != [] {
      var init := names[..|names| - 1];
      InsertAllAddsOnlyNames(hashtags, labelbaseId, init);
      assert forall x :: x in init ==> x in names;
    }
  }

  /** Every name ends up as a Hashtag of the labelbase. */
  lemma {:induction false} InsertAllCovers(hashtags: seq<Hashtag>, labelbaseId: int, names: seq<string>)
    ensures forall x :: x in names ==> HasTag(InsertAll(hashtags, labelbaseId, names), labelbaseId, x)
  {
    if names != [] {
      var init := names[..|names| - 1];
      var before := InsertAll(hashtags, labelbaseId, init);
      var after := Insert(before, labelbaseId, names[|names| - 1]);
      InsertAllCovers(hashtags, labelbaseId, init);
      assert after[..|before|] == before;
      forall x | x in names
        ensures HasTag(after, labelbaseId, x)
      {
        if x in init {
          var i :| 0 <= i < |before| && before[i].labelbaseId == labelbaseId && before[i].name == x;
          assert after[i] == before[i];
        } else if !HasTag(before, labelbaseId, x) {
          assert x == names[|names| - 1];
          assert after[|before|] == Hashtag(labelbaseId, x, "");
        }
      }
    }
  }

  /** No two Hashtags of the labelbase share a name. */
  predicate UniqueNames(hashtags: seq<Hashtag>, labelbaseId: int) {
    forall i, j :: (0 <= i < j < |hashtags| && hashtags[i].labelbaseId == labelbaseId
      && hashtags[j].labelbaseId == labelbaseId) ==> hashtags[i].name != hashtags[j].name
  }

  /** A tag repeated across labels gives one row: the task adds no duplicate
      name to a labelbase that had none. */
  lemma {:induction false} InsertAllUnique(hashtags: seq<Hashtag>, labelbaseId: int, names: seq<string>)
    requires UniqueNames(hashtags, labelbaseId)
    ensures UniqueNames(InsertAll(hashtags, labelbaseId, names), labelbaseId)
  {
    if names != [] {
      InsertAllUnique(hashtags, labelbaseId, names[..|names| - 1]);
    }
  }

  /** The task adds exactly the names it found that the labelbase did not
      have, and nothing twice. */
  lemma RunResult(hashtags: seq<Hashtag>, labels: seq<LabelText>, labelbaseId: int)
    requires UniqueNames(hashtags, labelbaseId)
    ensures var after := InsertAll(hashtags, labelbaseId, NamesIn(labels, labelbaseId));
      |hashtags| <= |after| && after[..|hashtags|] == hashtags
      && (forall i :: |hashtags| <= i < |after| ==>
        after[i].labelbaseId == labelbaseId && after[i].name in NamesIn(labels, labelbaseId))
      && (forall x :: x in NamesIn(labels, labelbaseId) ==> HasTag(after, labelbaseId, x))
      && UniqueNames(after, labelbaseId)
  {
    var names := NamesIn(labels, labelbaseId);
    InsertAllKeeps(hashtags, labelbaseId, names);
    InsertAllAddsOnlyNames(hashtags, labelbaseId, names);
    InsertAllCovers(hashtags, labelbaseId, names);
    InsertAllUnique(hashtags, labelbaseId, names);
  }

  /** A name found in a label of the labelbase is a word: one or more word
      characters. */
  lemma {:induction false} NamesAreWords(labels: seq<LabelText>, labelbaseId: int)
    ensures forall x :: x in NamesIn(labels, labelbaseId) ==>
      (|x| >= 1 && (forall k :: 0 <= k < |x| ==> IsWordChar(x[k])))
  {
    if labels != [] {
      NamesAreWords(labels[..|labels| - 1], labelbaseId);
    }
  }

  /** The Hashtag table. */
  class HashtagStore {
    var hashtags: seq<Hashtag>

    constructor(initial: seq<Hashtag>)
      ensures hashtags == initial
    {
      hashtags := initial;
    }

    /** The inner loop of the task: look for the name among the labelbase's
        Hashtags, and save a new one when it is not there. */
    method SaveIfMissing(labelbaseId: int, name: string)
      modifies this
      ensures hashtags == Insert(old(hashtags), labelbaseId, name)
    {
      var found := false;
      var i := 0;
      while i < |hashtags|
        invariant 0 <= i <= |hashtags|
        invariant !found ==> forall j :: 0 <= j < i ==> !(hashtags[j].labelbaseId == labelbaseId && hashtags[j].name == name)
        invariant found ==> HasTag(hashtags, labelbaseId, name)
      {
        if hashtags[i].labelbaseId == labelbaseId && hashtags[i].name == name {
          found := true;
          break;
        }
        i := i + 1;
      }
      if !found {
        hashtags := hashtags + [Hashtag(labelbaseId, name, "")];
      }
    }

    /** The tags of one label in turn. */
    method SaveTags(labelbaseId: int, tags: seq<string>)
      requires forall t :: t in tags ==> IsHashtag(t)
      modifies this
      ensures hashtags == InsertAll(old(hashtags), labelbaseId, TagNames(tags))
    {
      var j := 0;
      while j < |tags|
        invariant 0 <= j <= |tags|
        invariant hashtags == InsertAll(old(hashtags), labelbaseId, TagNames(tags[..j]))
      {
        var cleanTag := TagName(tags[j]);
        assert tags[..j + 1][..j] == tags[..j];
        SaveIfMissing(labelbaseId, cleanTag);
        j := j + 1;
      }
      assert tags[..j] == tags;
    }

    /** `store_hashtags_as_objects`: every hashtag of every label of the
        labelbase in turn. */
    method StoreHashtagsAsObjects(labels: seq<LabelText>, labelbaseId: int)
      modifies this
      ensures hashtags == InsertAll(old(hashtags), labelbaseId, NamesIn(labels, labelbaseId))
    {
      var i := 0;
      while i < |labels|
        invariant 0 <= i <= |labels|
        invariant hashtags == InsertAll(old(hashtags), labelbaseId, NamesIn(labels[..i], labelbaseId))
      {
        var done := NamesIn(labels[..i], labelbaseId);
        var added: seq<string> := [];
        if labels[i].labelbaseId == labelbaseId {
          var tags := FindHashtags(labels[i].text);
          SaveTags(labelbaseId, tags);
          added := TagNames(tags);
        }
        InsertAllAppend(old(hashtags), labelbaseId, done, added);
        assert labels[..i + 1][..i] == labels[..i];
        assert NamesIn(labels[..i + 1], labelbaseId) == done + added;
        i := i + 1;
      }
      assert labels[..i] == labels;
    }
  }
}
