/**
 * The investment calculator's `App`: a four-field input record, updated one
 * field at a time, and a validity rule that decides between the error message
 * and the results.
 */
module InvestmentCalculator {

  /** The keys `handleChange` is called with. */
  datatype InputField = InitialInvestment | AnnualInvestment | ExpectedReturn | Duration

  datatype InputData = InputData(initialInvestment: int, annualInvestment: int,
                                 expectedReturn: int, duration: int)

  /** What the page shows below the inputs. */
  datatype Shown = ErrorMessage | Results(data: InputData)

  /** The initial `inputData`. */
  const InitialInput := InputData(10000, 2000, 12, 10)

  /** `inputData[key]`. */
  function Get(d: InputData, key: InputField): int {
    match key
    case InitialInvestment => d.initialInvestment
    case AnnualInvestment => d.annualInvestment
    case ExpectedReturn => d.expectedReturn
    case Duration => d.duration
  }

  /** `inputIsValid`: the value under the duration key is at least one year. */
  predicate InputIsValid(d: InputData)
    ensures InputIsValid(d) <==> Get(d, Duration) >= 1
  {
    d.duration >= 1
  }

  /** `handleChange(key, value)`: `{...prev, [key]: value}`. */
  function HandleChange(d: InputData, key: InputField, value: int): (r: InputData)
    ensures Get(r, key) == value
    ensures forall k :: k != key ==> Get(r, k) == Get(d, k)
  {
    match key
    case InitialInvestment => d.(initialInvestment := value)
    case AnnualInvestment => d.(annualInvestment := value)
    case ExpectedReturn => d.(expectedReturn := value)
    case Duration => d.(duration := value)
  }

  /** The error message and the results are exclusive: the results, with the data, exactly when valid. */
  function View(d: InputData): (r: Shown)
    ensures r.Results? <==> InputIsValid(d)
    ensures r.ErrorMessage? <==> !InputIsValid(d)
    ensures r.Results? ==> r.data == d
  {
    if InputIsValid(d) then Results(d) else ErrorMessage
  }

  /** Repeating the same change changes nothing more. */
  lemma HandleChangeIdempotent(d: InputData, key: InputField, value: int)
    ensures HandleChange(HandleChange(d, key, value), key, value) == HandleChange(d, key, value)
  {
  }

  /** Only the duration decides validity: a change of it decides by itself, any other change keeps it. */
  lemma ValidityAfterChange(d: InputData, key: InputField, value: int)
    ensures key == Duration ==> (InputIsValid(HandleChange(d, key, value)) <==> value >= 1)
    ensures key != Duration ==> (InputIsValid(HandleChange(d, key, value)) <==> InputIsValid(d))
  {
  }

  /** The page opens on the results. */
  lemma InitialInputShowsResults()
    ensures View(InitialInput) == Results(InitialInput)
  {
  }
}
