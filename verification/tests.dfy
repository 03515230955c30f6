/**
 The concrete scenarios of `OptionalExtensionsTests`, one lemma per test
 method, with Swift strings written as `seq<char>`.
 */
module OptionalExtensionsTests {
  import opened Optionals
  import opened DictionarySlots
  import opened OptionalOrdering

  /** The test-local error type; its one case is thrown when unwrapping `nil`. */
  datatype OptionalTestError = OptionalIsNil

  lemma TestUnwrappedOrDefault()
    ensures UnwrappedOr(None, "swift") == "swift"
    ensures UnwrappedOr(Some("swifterswift"), "swift") == "swifterswift"
  {
  }

  lemma TestUnwrappedOrError()
    ensures UnwrappedOrThrow<string, OptionalTestError>(None, OptionalIsNil) == Failure(OptionalIsNil)
    ensures UnwrappedOrThrow(Some("I exist"), OptionalIsNil).Success?
  {
  }

  lemma TestRunBlock()
    ensures Run<string>(None) == []
    ensures Run(Some("swift")) == ["swift"]
  {
  }

  lemma TestOptionalAssignment()
    ensures var parameters := CoalesceAssign(CoalesceAssign(map[], "key1", None), "key2", Some("foo"));
            && Lookup(parameters, "key1") == None
            && Lookup(parameters, "key2") == Some("foo")
  {
  }

  lemma TestConditionalAssignment()
    ensures ConditionalAssign(None, Some("newText1")) == Some("newText1")
    ensures ConditionalAssign(Some("text2"), Some("newText2")) == Some("text2")
    ensures ConditionalAssign<string>(None, None) == None
    ensures ConditionalAssign(Some("text4"), None) == Some("text4")
  {
  }

  lemma TestIsNilOrEmpty()
    ensures IsNilOrEmpty<string>(None)
    ensures IsNilOrEmpty<string>(Some([]))
    ensures !IsNilOrEmpty(Some([1]))
    ensures IsNilOrEmpty<char>(None)
    ensures IsNilOrEmpty(Some(""))
    ensures !IsNilOrEmpty(Some("hello World!"))
  {
  }

  lemma TestComparable()
    // Int?.some vs Int
    ensures Less(Some(-1), Some(0)) && Less(Some(0), Some(1)) && Less(Some(1), Some(2))
    ensures Less(Some(-2), Some(-1)) && Less(Some(-1), Some(0)) && Less(Some(0), Some(1))
    // Int?.none vs Int
    ensures Less(None, Some(-1)) && Less(None, Some(0)) && Less(None, Some(1))
    ensures !Less(Some(-1), None) && !Less(Some(0), None) && !Less(Some(1), None)
    // Int?.some vs Int?.some
    ensures Less(Some(-1), Some(0)) && Less(Some(-1), Some(1)) && Less(Some(0), Some(1))
  {
  }
}
