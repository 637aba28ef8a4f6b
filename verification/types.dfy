/**
 The records the component works on: the generation request and response, the
 test cases inside a response, what the generation call can throw, and the
 tracker credentials.
 */
module Types {

  datatype Option<T> = None | Some(value: T)

  /** The four form fields sent to the generation service (`GenerateRequest`),
      in the order the component initialises them. */
  datatype Request = Request(
    storyTitle: string,
    acceptanceCriteria: string,
    description: string,
    additionalInfo: string)

  /** The names `handleInputChange` accepts (`keyof GenerateRequest`). */
  datatype Field = StoryTitle | AcceptanceCriteria | Description | AdditionalInfo

  /** One generated test case. `testData` is optional; `steps` are in display
      order. */
  datatype TestCase = TestCase(
    id: string,
    title: string,
    category: string,
    expectedResult: string,
    testData: Option<string>,
    steps: seq<string>)

  /** The generation service's answer (`GenerateResponse`). Token counts are
      whole numbers here. */
  datatype Response = Response(
    cases: seq<TestCase>,
    model: Option<string>,
    promptTokens: int,
    completionTokens: int)

  /** What a failed generation call rejects with: an `Error` object, which
      carries a message, or any other thrown value. */
  datatype Thrown = ErrorObject(message: string) | OtherValue

  /** The tracker credential form. */
  datatype Credentials = Credentials(url: string, email: string, apiToken: string)

  /** The names `handleJiraCredentialChange` is called with. */
  datatype CredentialField = Url | Email | ApiToken
}
