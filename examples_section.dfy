/**
 * The `Examples` section: four tabs, a selected-topic state that starts
 * undefined, a highlight per tab and the content below the tabs.
 */
module ExamplesSection {
  import opened Wrappers

  /** The keys of the four tab buttons, in display order. */
  const TabKeys: seq<string> := ["components", "jsx", "props", "state"]

  /** The content below the tabs. */
  datatype TabContent = Placeholder | TopicContent(topic: string)

  /**
   * `if (selectedTopic)`: JavaScript truthiness, so `undefined` and the empty
   * string show the placeholder and any other topic shows its content.
   */
  function Content(selectedTopic: Option<string>): (r: TabContent)
    ensures r.TopicContent? <==> selectedTopic.Some? && selectedTopic.value != ""
    ensures r.TopicContent? ==> r.topic == selectedTopic.value
  {
    match selectedTopic
    case Some(t) => if t != "" then TopicContent(t) else Placeholder
    case None => Placeholder
  }

  /**
   * `isSelected` of a tab: its key is the selected topic. A highlighted tab
   * with a non-empty key has its content shown below the tabs.
   */
  predicate IsSelected(selectedTopic: Option<string>, key: string)
    ensures IsSelected(selectedTopic, key) && key != "" ==> Content(selectedTopic) == TopicContent(key)
    ensures IsSelected(selectedTopic, key) ==> selectedTopic.Some?
  {
    selectedTopic == Some(key)
  }

  /** The keys among `keys` whose tab is highlighted, in order. */
  function Highlighted(selectedTopic: Option<string>, keys: seq<string>): (r: seq<string>)
    decreases |keys|
  {
    if keys == [] then []
    else (if IsSelected(selectedTopic, keys[0]) then [keys[0]] else [])
         + Highlighted(selectedTopic, keys[1..])
  }

  predicate Distinct(keys: seq<string>) {
    forall i, j :: 0 <= i < j < |keys| ==> keys[i] != keys[j]
  }

  /** A tab is highlighted only if its key is the selected topic. */
  lemma {:induction false} HighlightedAreSelected(selectedTopic: Option<string>, keys: seq<string>)
    ensures forall k :: k in Highlighted(selectedTopic, keys) ==> k in keys && IsSelected(selectedTopic, k)
    decreases |keys|
  {
    if keys != [] {
      HighlightedAreSelected(selectedTopic, keys[1..]);
    }
  }

  /**
   * Among distinct keys at most one tab is highlighted, and one is exactly
   * when the selected topic is one of the keys.
   */
  lemma {:induction false} AtMostOneHighlighted(selectedTopic: Option<string>, keys: seq<string>)
    requires Distinct(keys)
    ensures |Highlighted(selectedTopic, keys)| <= 1
    ensures |Highlighted(selectedTopic, keys)| == 1 <==> selectedTopic.Some? && selectedTopic.value in keys
    decreases |keys|
  {
    if keys != [] {
      var rest := keys[1..];
      assert Distinct(rest) by {
        forall i, j | 0 <= i < j < |rest| ensures rest[i] != rest[j] {
          assert rest[i] == keys[i + 1] && rest[j] == keys[j + 1];
        }
      }
      AtMostOneHighlighted(selectedTopic, rest);
      if IsSelected(selectedTopic, keys[0]) {
        assert keys[0] !in rest by {
          forall j | 0 <= j < |rest| ensures rest[j] != keys[0] {
            assert rest[j] == keys[j + 1];
          }
        }
        assert selectedTopic.value in keys;
      } else {
        assert selectedTopic.Some? && selectedTopic.value in keys ==> selectedTopic.value in rest;
      }
    }
  }

  /** The four tab keys are distinct, so at most one of the four tabs is highlighted. */
  lemma AtMostOneTabHighlighted(selectedTopic: Option<string>)
    ensures |Highlighted(selectedTopic, TabKeys)| <= 1
    ensures |Highlighted(selectedTopic, TabKeys)| == 1 <==> selectedTopic.Some? && selectedTopic.value in TabKeys
  {
    assert Distinct(TabKeys) by {
      assert TabKeys[0][0] == 'c' && TabKeys[1][0] == 'j' && TabKeys[2][0] == 'p' && TabKeys[3][0] == 's';
    }
    AtMostOneHighlighted(selectedTopic, TabKeys);
  }

  class Examples {
    /** `selectedTopic`; `None` stands for `undefined`. */
    var selectedTopic: Option<string>

    /** `useState()`: nothing selected, so the placeholder shows and no tab is highlighted. */
    constructor ()
      ensures selectedTopic == None
      ensures Content(selectedTopic) == Placeholder
      ensures Highlighted(selectedTopic, TabKeys) == []
    {
      selectedTopic := None;
    }

    /** `handleSelect(selectedButton)`: the button's key becomes the selected topic. */
    method HandleSelect(selectedButton: string)
      modifies this
      ensures selectedTopic == Some(selectedButton)
      ensures IsSelected(selectedTopic, selectedButton)
    {
      selectedTopic := Some(selectedButton);
    }
  }

  /** Selecting the same tab twice leaves the same state as selecting it once. */
  method SelectTwice(e: Examples, selectedButton: string)
    modifies e
    ensures e.selectedTopic == Some(selectedButton)
  {
    e.HandleSelect(selectedButton);
    var once := e.selectedTopic;
    e.HandleSelect(selectedButton);
    assert e.selectedTopic == once;
  }
}
