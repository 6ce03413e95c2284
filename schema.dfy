/** The record table of the history timeline: one row per dynasty or reign,
    with its years, descriptive text, ten 0..10 rating indices and nine
    population counts. */
module Schema {

  datatype Option<T> = None | Some(value: T)

  /** A text cell of the table. `None` is a missing cell (NaN once the table
      has been read back from the spreadsheet, or a None form value). */
  type Cell = Option<string>

  /** The ten rating columns, one constructor per column. */
  datatype Metric = Economy | Political | Science | Education | Craft | Humanity | Kindness | Law | Justice | Religion

  datatype Indices = Indices(
    humanity: int, economy: int, education: int, science: int, political: int,
    craft: int, religion: int, kindness: int, law: int, justice: int)

  /** The nine population columns, one constructor per column. */
  datatype Group = Hindu | Muslim | Jain | Buddha | Sikh | French | British | Others | Christian

  datatype Population = Population(
    hindu: int, muslim: int, jain: int, sikh: int, buddha: int,
    french: int, british: int, christian: int, others: int)

  /** One row of the table; the fields follow the columns of a new entry. */
  datatype Record = Record(
    dynasty: Cell, king: Cell,
    startYear: int, endYear: int,
    capital: Cell, successor: Cell, achievements: Cell, events: Cell,
    occupiedZone: Cell, wars: Cell,
    indices: Indices, population: Population,
    rituals: Cell, malpractices: Cell, employment: Cell, diets: Cell)

  /** Column name of a rating index. */
  function MetricName(m: Metric): string
  {
    match m
    case Economy => "Economy"
    case Political => "Political"
    case Science => "Science"
    case Education => "Education"
    case Craft => "Craft"
    case Humanity => "Humanity"
    case Kindness => "Kindness"
    case Law => "Law"
    case Justice => "Justice"
    case Religion => "Religion"
  }

  /** Value of the rating column `m`. */
  function Score(ix: Indices, m: Metric): int
  {
    match m
    case Economy => ix.economy
    case Political => ix.political
    case Science => ix.science
    case Education => ix.education
    case Craft => ix.craft
    case Humanity => ix.humanity
    case Kindness => ix.kindness
    case Law => ix.law
    case Justice => ix.justice
    case Religion => ix.religion
  }

  /** Column name of a population group. */
  function GroupName(g: Group): string
  {
    match g
    case Hindu => "Hindu"
    case Muslim => "Muslim"
    case Jain => "Jain"
    case Buddha => "Buddha"
    case Sikh => "Sikh"
    case French => "French"
    case British => "British"
    case Others => "Others"
    case Christian => "Christian"
  }

  /** Value of the population column `g`. */
  function Headcount(p: Population, g: Group): int
  {
    match g
    case Hindu => p.hindu
    case Muslim => p.muslim
    case Jain => p.jain
    case Buddha => p.buddha
    case Sikh => p.sikh
    case French => p.french
    case British => p.british
    case Others => p.others
    case Christian => p.christian
  }

  /** Distinct columns have distinct names. */
  lemma MetricNamesDistinct(m: Metric, m': Metric)
    ensures MetricName(m) == MetricName(m') <==> m == m'
  {
  }

  /** The ranges the entry form's nineteen number inputs enforce: years in
      [-2000, 2000], indices in [0, 10], populations at least 0. */
  predicate InWidgetRanges(e: Record)
  {
    && -2000 <= e.startYear <= 2000 && -2000 <= e.endYear <= 2000
    && 0 <= e.indices.humanity <= 10 && 0 <= e.indices.economy <= 10
    && 0 <= e.indices.education <= 10 && 0 <= e.indices.science <= 10
    && 0 <= e.indices.political <= 10 && 0 <= e.indices.craft <= 10
    && 0 <= e.indices.religion <= 10 && 0 <= e.indices.kindness <= 10
    && 0 <= e.indices.law <= 10 && 0 <= e.indices.justice <= 10
    && 0 <= e.population.hindu && 0 <= e.population.muslim
    && 0 <= e.population.jain && 0 <= e.population.sikh
    && 0 <= e.population.buddha && 0 <= e.population.french
    && 0 <= e.population.british && 0 <= e.population.christian
    && 0 <= e.population.others
  }
}
