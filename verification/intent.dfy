/** Turning a click on a row's remove button into the identifier of the row. */
module Intent {
  import opened Wrappers
  import opened Strings

  /** Rows tag their remove button with a class `id-<identifier>`. */
  const IdClassPrefix := "id-"

  /** The action class of a row's remove button. */
  const RemoveAction := "remove"

  /** The remove action is a single class and not an `id-` class. */
  lemma RemoveActionIsClass()
    ensures IsClass(RemoveAction) && !StartsWith(RemoveAction, IdClassPrefix)
  {
    assert RemoveAction[..|IdClassPrefix|][0] == 'r';
  }

  /** The classes every action button carries after its action and id classes. */
  const ButtonClasses := "btn btn-sm btn-outline-danger"

  /** ASCII whitespace, which separates the classes of a `className`: tab, line feed, form feed, carriage return, space. */
  predicate IsSpace(c: char) {
    c == '\t' || c == '\n' || c == '\U{000C}' || c == '\r' || c == ' '
  }

  /** No whitespace anywhere in `s`. */
  predicate NoSpace(s: string) {
    forall i :: 0 <= i < |s| ==> !IsSpace(s[i])
  }

  /** A single class: non-empty and free of whitespace. */
  predicate IsClass(s: string) {
    |s| > 0 && NoSpace(s)
  }

  /** Length of the run of non-whitespace characters `s` starts with. */
  function WordLength(s: string): (n: nat)
    ensures n <= |s|
    ensures NoSpace(s[..n])
    ensures n == |s| || IsSpace(s[n])
  {
    if |s| == 0 || IsSpace(s[0]) then 0
    else
      var n := 1 + WordLength(s[1..]);
      assert s[..n] == [s[0]] + s[1..][..n - 1];
      n
  }

  /**
   * `classList` of an element with the given `className`: the string split on
   * ASCII whitespace, empty pieces dropped, in order.
   */
  function ClassList(className: string): (classes: seq<string>)
    ensures forall i :: 0 <= i < |classes| ==> IsClass(classes[i])
    ensures NoSpace(className) && className != "" ==> classes == [className]
    decreases |className|
  {
    if |className| == 0 then []
    else if IsSpace(className[0]) then ClassList(className[1..])
    else
      var n := WordLength(className);
      assert NoSpace(className) ==> n == |className| && className[..n] == className && className[n..] == [];
      [className[..n]] + ClassList(className[n..])
  }

  /** A leading whitespace character adds no class. */
  lemma SpaceSkipped(c: char, rest: string)
    requires IsSpace(c)
    ensures ClassList([c] + rest) == ClassList(rest)
  {
    assert ([c] + rest)[1..] == rest;
  }

  /** A class followed by a whitespace character is split off as the first class of the list. */
  lemma ClassThenSpace(w: string, c: char, rest: string)
    requires IsClass(w) && IsSpace(c)
    ensures ClassList(w + [c] + rest) == [w] + ClassList([c] + rest)
    ensures ClassList(w + [c] + rest) == [w] + ClassList(rest)
  {
    var s := w + [c] + rest;
    WordThenSpace(w, c, rest);
    assert s[..|w|] == w;
    assert s[|w|..] == [c] + rest;
    SpaceSkipped(c, rest);
  }

  /** The leading word of `w + [c] + rest`, for a whitespace character `c`, is exactly `w`. */
  lemma {:induction false} WordThenSpace(w: string, c: char, rest: string)
    requires NoSpace(w) && IsSpace(c)
    ensures WordLength(w + [c] + rest) == |w|
    decreases |w|
  {
    if |w| > 0 {
      assert (w + [c] + rest)[1..] == w[1..] + [c] + rest;
      WordThenSpace(w[1..], c, rest);
    }
  }

  /**
   * `getCoinIdFromClass`: the text after `id-` in the first class that starts
   * with `id-`, or None when no class does.
   */
  function GetCoinIdFromClass(classes: seq<string>): (r: Option<string>)
    ensures r.None? <==> forall i :: 0 <= i < |classes| ==> !StartsWith(classes[i], IdClassPrefix)
    ensures r.Some? ==> exists i :: 0 <= i < |classes| && classes[i] == IdClassPrefix + r.value
                                    && forall j :: 0 <= j < i ==> !StartsWith(classes[j], IdClassPrefix)
  {
    if |classes| == 0 then None
    else if StartsWith(classes[0], IdClassPrefix) then
      assert classes[0] == IdClassPrefix + classes[0][|IdClassPrefix|..];
      Some(classes[0][|IdClassPrefix|..])
    else
      var r := GetCoinIdFromClass(classes[1..]);
      if r.Some? then
        ghost var i :| 0 <= i < |classes[1..]| && classes[1..][i] == IdClassPrefix + r.value
                       && forall j :: 0 <= j < i ==> !StartsWith(classes[1..][j], IdClassPrefix);
        assert classes[i + 1] == IdClassPrefix + r.value;
        r
      else
        r
  }

  /** `renderActionButton`'s `className`: `<action> id-<id>  btn btn-sm btn-outline-danger`. */
  function ActionButtonClass(action: string, id: string): string {
    action + " " + IdClassPrefix + id + "  " + ButtonClasses
  }

  /** The `className` of a button, grouped as its action class, a space, and the rest. */
  lemma ButtonShape(action: string, id: string, b: string)
    ensures ActionButtonClass(action, id) == action + " " + ((IdClassPrefix + id) + " " + (" " + ButtonClasses))
    ensures ActionButtonClass(action, id + " " + b) == action + " " + ((IdClassPrefix + id) + " " + (b + "  " + ButtonClasses))
  {
  }

  /** The id read back from a button: the class list of its `className`, searched for `id-`. */
  function ClickedId(className: string): Option<string> {
    GetCoinIdFromClass(ClassList(className))
  }

  /** After an action class that is not an `id-` class, the first `id-` class wins. */
  lemma IdAfterAction(action: string, idClass: string, rest: seq<string>)
    requires !StartsWith(action, IdClassPrefix)
    requires StartsWith(idClass, IdClassPrefix)
    ensures GetCoinIdFromClass([action, idClass] + rest) == Some(idClass[|IdClassPrefix|..])
  {
    var cs := [action, idClass] + rest;
    assert cs[0] == action;
    assert cs[1..] == [idClass] + rest;
  }

  /** `id-<id>` is a single class when `id` has no whitespace. */
  lemma IdClassIsClass(id: string)
    requires NoSpace(id)
    ensures IsClass(IdClassPrefix + id)
  {
    var idClass := IdClassPrefix + id;
    forall i | 0 <= i < |idClass| ensures !IsSpace(idClass[i]) {
      if i >= |IdClassPrefix| { assert idClass[i] == id[i - |IdClassPrefix|]; }
    }
  }

  /**
   * A `className` of an action class, then an `id-` class, then anything
   * after a whitespace reads back as the text of the `id-` class.
   */
  lemma ReadsIdClass(action: string, id: string, rest: string)
    requires IsClass(action) && !StartsWith(action, IdClassPrefix)
    requires NoSpace(id)
    ensures ClickedId(action + " " + ((IdClassPrefix + id) + " " + rest)) == Some(id)
  {
    var idClass := IdClassPrefix + id;
    IdClassIsClass(id);
    ClassThenSpace(action, ' ', idClass + " " + rest);
    ClassThenSpace(idClass, ' ', rest);
    assert action + " " + (idClass + " " + rest) == action + [' '] + (idClass + " " + rest);
    assert idClass + " " + rest == idClass + [' '] + rest;
    assert [action] + ([idClass] + ClassList(rest)) == [action, idClass] + ClassList(rest);
    PrefixSlice(IdClassPrefix, id);
    IdAfterAction(action, idClass, ClassList(rest));
  }

  /**
   * A rendered button whose id has no whitespace reads back as that id,
   * provided the action class is a single class that does not start with `id-`.
   */
  lemma RemoveButtonRoundTrip(action: string, id: string)
    requires IsClass(action) && !StartsWith(action, IdClassPrefix)
    requires NoSpace(id)
    ensures ClickedId(ActionButtonClass(action, id)) == Some(id)
  {
    ButtonShape(action, id, "");
    ReadsIdClass(action, id, " " + ButtonClasses);
  }

  /**
   * An id with whitespace does not read back: the class list breaks it at the
   * first whitespace, so the button of row `a b` reads as `a`.
   */
  lemma SpacedIdReadsFirstWord(action: string, a: string, b: string)
    requires IsClass(action) && !StartsWith(action, IdClassPrefix)
    requires NoSpace(a)
    ensures ClickedId(ActionButtonClass(action, a + " " + b)) == Some(a)
    ensures a != a + " " + b
  {
    ButtonShape(action, a, b);
    ReadsIdClass(action, a, b + "  " + ButtonClasses);
    assert |a + " " + b| > |a|;
  }
}
