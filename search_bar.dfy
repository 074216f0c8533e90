/**
 * `SearchBar` (apps/web/src/components/search/search-bar.tsx): the text it
 * holds, whether it has the focus, the submit rule and the submit button.
 * The component's `useState` cells are the fields of the class; the
 * `onSearch` callback is the value `HandleSubmit` returns.
 */
module SearchBar {
  import opened Wrappers
  import opened JsString

  const DEFAULT_PLACEHOLDER: string := "Enter ABN or business name..."

  /** The submit button: its label and whether it is disabled. */
  datatype SubmitButton = SubmitButton(text: string, disabled: bool)

  /** `disabled={isLoading}` and `{isLoading ? 'Searching...' : 'Search'}`. */
  function SubmitButtonFor(isLoading: bool): (b: SubmitButton)
    ensures b.disabled <==> isLoading
    ensures b.text == (if isLoading then "Searching..." else "Search")
  {
    SubmitButton(if isLoading then "Searching..." else "Search", isLoading)
  }

  /** The button is disabled exactly when it reads 'Searching...'. */
  lemma DisabledIffSearching(isLoading: bool)
    ensures SubmitButtonFor(isLoading).disabled <==> SubmitButtonFor(isLoading).text == "Searching..."
  {
  }

  class SearchBar {
    var query: string
    var isFocused: bool
    const placeholder: string

    /** The props with their defaults: `placeholder`, `defaultValue = ''`. */
    constructor (placeholderProp: Option<string>, defaultValue: Option<string>)
      ensures query == GetOr(defaultValue, "")
      ensures !isFocused
      ensures placeholder == GetOr(placeholderProp, DEFAULT_PLACEHOLDER)
    {
      query := GetOr(defaultValue, "");
      isFocused := false;
      placeholder := GetOr(placeholderProp, DEFAULT_PLACEHOLDER);
    }

    /** `onChange`: the input's new value replaces the query. */
    method SetQuery(value: string)
      modifies this
      ensures query == value && isFocused == old(isFocused)
    {
      query := value;
    }

    /** `onFocus`. */
    method Focus()
      modifies this
      ensures isFocused && query == old(query)
    {
      isFocused := true;
    }

    /** `onBlur`. */
    method Blur()
      modifies this
      ensures !isFocused && query == old(query)
    {
      isFocused := false;
    }

    /**
     * `handleSubmit`: `onSearch(query.trim())` when the trimmed query is
     * non-empty, nothing otherwise; the query itself is left as typed.
     */
    method HandleSubmit() returns (search: Option<string>)
      ensures search.Some? <==> exists k :: 0 <= k < |query| && !IsJsWhitespace(query[k])
      ensures search.Some? ==> search.value == Trim(query)
      ensures search.Some? ==> search.value != [] && !IsJsWhitespace(search.value[0])
                                 && !IsJsWhitespace(search.value[|search.value| - 1])
      ensures search.Some? ==> Trim(search.value) == search.value
    {
      var trimmed := Trim(query);
      if |trimmed| > 0 {
        TrimIdempotent(query);
        search := Some(trimmed);
      } else {
        search := None;
      }
    }
  }
}
