/**
 * What the optimizers may ask of a loaded page. The page itself (HTML
 * parsing, selector matching, the headless browser) is not modelled: a page
 * is the answers it gives. The DOM is never changed while CSS is pruned, so
 * each answer is a fixed function of its question.
 */
module Dom {

  import opened Wrappers

  /** A child node of a `<style>` element: its node type and its text. */
  datatype TextChild = TextChild(kind: string, data: string)

  /** A non-boilerplate `<style>` element of the page. */
  datatype StyleTag = StyleTag(children: seq<TextChild>)

  /** The two attributes the escaped-selector test reads; an absent attribute is `None`. */
  datatype Element = Element(cls: Option<string>, id: Option<string>)

  /** JavaScript truthiness of an attribute value: present and not the empty string. */
  predicate Truthy(a: Option<string>) {
    a.Some? && a.value != ""
  }

  /** The element's whole class attribute, or its id, is exactly `name`. */
  predicate NamedBy(e: Element, name: string) {
    (Truthy(e.cls) && e.cls.value == name) || (Truthy(e.id) && e.id.value == name)
  }

  /** Some element of the list is named `name` by its class attribute or its id. */
  predicate AnyNamed(els: seq<Element>, name: string) {
    exists i :: 0 <= i < |els| && NamedBy(els[i], name)
  }

  /** The ASCII whitespace that separates the classes of a class attribute in HTML. */
  predicate Space(c: char) {
    c == ' ' || c == '\t' || c == '\n' || c == '\U{C}' || c == '\r'
  }

  /** `name` occurs in `cls` at position `i`, with whitespace or an end on either side. */
  predicate ClassAt(cls: string, name: string, i: int) {
    0 <= i <= |cls| - |name| && cls[i..i + |name|] == name
    && (i == 0 || Space(cls[i - 1]))
    && (i + |name| == |cls| || Space(cls[i + |name|]))
  }

  /** `name` is one of the whitespace-separated classes of the attribute value `cls`. */
  predicate HasClass(cls: string, name: string) {
    |name| > 0 && (forall k :: 0 <= k < |name| ==> !Space(name[k]))
    && exists i :: 0 <= i <= |cls| && ClassAt(cls, name, i)
  }

  /** The element carries the class `name`, or its id is exactly `name`. */
  predicate ListedBy(e: Element, name: string) {
    (Truthy(e.cls) && HasClass(e.cls.value, name)) || (Truthy(e.id) && e.id.value == name)
  }

  /** Some element of the list carries the class `name` or has it as its id. */
  predicate AnyListed(els: seq<Element>, name: string) {
    exists i :: 0 <= i < |els| && ListedBy(els[i], name)
  }

  /** An element whose whole class attribute is a single class name carries that class. */
  lemma NamedIsListed(e: Element, name: string)
    requires NamedBy(e, name)
    requires forall k :: 0 <= k < |name| ==> !Space(name[k])
    ensures ListedBy(e, name)
  {
    if Truthy(e.cls) && e.cls.value == name {
      assert e.cls.value[0..|name|] == name;
      assert ClassAt(e.cls.value, name, 0);
    }
  }

  /**
   * Comparing the whole class attribute misses a class listed with others:
   * `class="sm:flex p-4"` does not name `sm:flex`, although it carries it.
   */
  lemma WholeAttributeMissesListedClass()
    ensures var e := Element(Some("sm:flex p-4"), None);
            !NamedBy(e, "sm:flex") && ListedBy(e, "sm:flex")
  {
    var cls := "sm:flex p-4";
    assert cls[0..7] == "sm:flex";
    assert Space(cls[7]);
    assert ClassAt(cls, "sm:flex", 0);
    assert cls != "sm:flex" by {
      assert |cls| == 11;
    }
  }

  /**
   * The static (cheerio) page: its custom style tags, the exception tags that
   * occur on it, the number of elements a selector matches (`None` where
   * cheerio throws on the selector), every element (`queryAll('*')`), and the
   * serialised page once its custom styles are replaced by a given CSS text.
   */
  datatype StaticDom = StaticDom(
    customStyles: seq<StyleTag>,
    exceptionTags: set<string>,
    count: string -> Option<nat>,
    elements: seq<Element>,
    htmlWith: string -> string)

  /**
   * The dynamic (headless browser) page: the element count of a selector and
   * the element list (`None` where the promise rejects), whether replacing the
   * custom styles by a CSS text succeeds, and the serialised page given the CSS
   * text that was installed, if any (`None` where that promise rejects).
   */
  datatype DynamicDom = DynamicDom(
    count: string -> Option<nat>,
    queryAll: Option<seq<Element>>,
    replaceSucceeds: string -> bool,
    htmlAfter: Option<string> -> Option<string>)
}
