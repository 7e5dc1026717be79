/** The meal log (the frontend/ and src/ copies have the same logic): a list
    of meals with a validated append, delete by id, per-nutrient totals and
    a sort by time applied in place to the state array on every render. */
module MealTracker {
  import opened Text
  import Sorting
  import Gauge

  datatype Meal = Meal(id: int, mealType: string, name: string, time: string,
                       calories: int, carbs: int, protein: int, fat: int)

  /** The add-meal form: every field as the input holds it. */
  datatype MealForm = MealForm(mealType: string, name: string, time: string,
                               calories: string, carbs: string, protein: string, fat: string)

  const EmptyForm: MealForm := MealForm("breakfast", "", "", "", "", "", "")

  const InitialMeals: seq<Meal> := [
    Meal(1, "breakfast", "Oatmeal with fruits", "08:30", 350, 45, 12, 8),
    Meal(2, "lunch", "Grilled chicken salad", "12:45", 450, 20, 35, 15)
  ]

  const DailyGoal: nat := 2000

  datatype Nutrient = Calories | Carbs | Protein | Fat

  function Amount(m: Meal, n: Nutrient): int {
    match n
    case Calories => m.calories
    case Carbs => m.carbs
    case Protein => m.protein
    case Fat => m.fat
  }

  /** meals.reduce((sum, meal) => sum + meal[n], 0). */
  function Total(meals: seq<Meal>, n: Nutrient): int
    decreases |meals|
  {
    if meals == [] then 0 else Total(meals[..|meals| - 1], n) + Amount(meals[|meals| - 1], n)
  }

  lemma {:induction false} TotalConcat(a: seq<Meal>, b: seq<Meal>, n: Nutrient)
    ensures Total(a + b, n) == Total(a, n) + Total(b, n)
    decreases |b|
  {
    if b == [] {
      assert a + b == a;
    } else {
      var b', x := b[..|b| - 1], b[|b| - 1];
      var ab := a + b;
      assert ab[..|ab| - 1] == a + b';
      assert ab[|ab| - 1] == x;
      assert Total(ab, n) == Total(a + b', n) + Amount(x, n);
      TotalConcat(a, b', n);
    }
  }

  /** Totals do not depend on the order of the meals. */
  lemma {:induction false} TotalPermutation(a: seq<Meal>, b: seq<Meal>, n: Nutrient)
    requires multiset(a) == multiset(b)
    ensures Total(a, n) == Total(b, n)
    decreases |a|
  {
    if a == [] {
      assert |b| == |multiset(b)| == 0;
    } else {
      var k := MatchLast(a, b);
      var a', x := a[..|a| - 1], a[|a| - 1];
      TotalPermutation(a', b[..k] + b[k + 1..], n);
      TotalSplit(b[..k], x, b[k + 1..], n);
      assert a == a' + [x];
    }
  }

  /** The last element of a occurs in its permutation b, at some k whose
      removal leaves a permutation of the rest of a. */
  lemma MatchLast(a: seq<Meal>, b: seq<Meal>) returns (k: nat)
    requires a != [] && multiset(a) == multiset(b)
    ensures k < |b| && b[k] == a[|a| - 1]
    ensures b == b[..k] + [b[k]] + b[k + 1..]
    ensures multiset(a[..|a| - 1]) == multiset(b[..k] + b[k + 1..])
  {
    var x := a[|a| - 1];
    assert a == a[..|a| - 1] + [x];
    assert x in multiset(b);
    k :| 0 <= k < |b| && b[k] == x;
    RemoveAt(b, k);
  }

  /** Taking out the element at k leaves the rest of the multiset. */
  lemma RemoveAt(b: seq<Meal>, k: nat)
    requires k < |b|
    ensures b == b[..k] + [b[k]] + b[k + 1..]
    ensures multiset(b[..k] + b[k + 1..]) == multiset(b) - multiset{b[k]}
  {
    assert b == b[..k] + [b[k]] + b[k + 1..];
    assert multiset(b) == multiset(b[..k]) + multiset{b[k]} + multiset(b[k + 1..]);
  }

  lemma TotalSplit(p: seq<Meal>, x: Meal, q: seq<Meal>, n: Nutrient)
    ensures Total(p + [x] + q, n) == Total(p + q, n) + Amount(x, n)
  {
    TotalConcat(p + [x], q, n);
    TotalConcat(p, q, n);
    assert (p + [x])[..|p|] == p;
  }

  /** The form passes the check of handleAddMeal: every field but the
      meal type is non-empty. */
  predicate Complete(f: MealForm) {
    f.name != [] && f.time != [] && f.calories != [] && f.carbs != [] && f.protein != [] && f.fat != []
  }

  /** The meal a complete form adds, under the id taken from the clock. */
  function FromForm(f: MealForm, id: int): Meal {
    Meal(id, f.mealType, f.name, f.time,
         ParseInt(f.calories), ParseInt(f.carbs), ParseInt(f.protein), ParseInt(f.fat))
  }

  /** Adding a meal raises each total by exactly that meal's amount. */
  lemma TotalAfterAdd(meals: seq<Meal>, m: Meal, n: Nutrient)
    ensures Total(meals + [m], n) == Total(meals, n) + Amount(m, n)
  {
    assert (meals + [m])[..|meals|] == meals;
  }

  /** meals.filter(meal => meal.id !== id). */
  function Without(meals: seq<Meal>, id: int): (r: seq<Meal>)
    ensures |r| <= |meals|
    decreases |meals|
  {
    if meals == [] then []
    else
      var last := meals[|meals| - 1];
      Without(meals[..|meals| - 1], id) + (if last.id != id then [last] else [])
  }

  /** The meals a delete removes. */
  function WithId(meals: seq<Meal>, id: int): (r: seq<Meal>)
    ensures |r| <= |meals|
    ensures forall m :: m in r ==> m in meals && m.id == id
    decreases |meals|
  {
    if meals == [] then []
    else
      var last := meals[|meals| - 1];
      WithId(meals[..|meals| - 1], id) + (if last.id == id then [last] else [])
  }

  /** A delete keeps exactly the meals with another id, and the removed
      ones are exactly those with this id. */
  lemma {:induction false} WithoutMembers(meals: seq<Meal>, id: int, m: Meal)
    ensures m in Without(meals, id) <==> m in meals && m.id != id
    ensures m in WithId(meals, id) <==> m in meals && m.id == id
    decreases |meals|
  {
    if meals != [] {
      var init, last := meals[..|meals| - 1], meals[|meals| - 1];
      assert meals == init + [last];
      WithoutMembers(init, id, m);
    }
  }

  /** The filter keeps the survivors in their order: it works piece by
      piece, and leaves a list without the id exactly as it was. */
  lemma {:induction false} WithoutConcat(a: seq<Meal>, b: seq<Meal>, id: int)
    ensures Without(a + b, id) == Without(a, id) + Without(b, id)
    decreases |b|
  {
    if b == [] {
      assert a + b == a;
    } else {
      var b', x := b[..|b| - 1], b[|b| - 1];
      var ab := a + b;
      assert ab[..|ab| - 1] == a + b';
      assert ab[|ab| - 1] == x;
      WithoutConcat(a, b', id);
    }
  }

  lemma {:induction false} WithoutAbsent(meals: seq<Meal>, id: int)
    requires forall i :: 0 <= i < |meals| ==> meals[i].id != id
    ensures Without(meals, id) == meals
    decreases |meals|
  {
    if meals != [] {
      var init := meals[..|meals| - 1];
      WithoutAbsent(init, id);
      assert meals == init + [meals[|meals| - 1]];
    }
  }

  /** A delete lowers each total by exactly the amounts of the meals it
      removes. */
  lemma {:induction false} TotalAfterDelete(meals: seq<Meal>, id: int, n: Nutrient)
    ensures Total(Without(meals, id), n) == Total(meals, n) - Total(WithId(meals, id), n)
    decreases |meals|
  {
    if meals != [] {
      var init, last := meals[..|meals| - 1], meals[|meals| - 1];
      TotalAfterDelete(init, id, n);
      if last.id != id {
        TotalAfterAdd(Without(init, id), last, n);
        assert WithId(meals, id) == WithId(init, id) + [];
        assert WithId(init, id) + [] == WithId(init, id);
      } else {
        TotalAfterAdd(WithId(init, id), last, n);
        assert Without(meals, id) == Without(init, id) + [];
        assert Without(init, id) + [] == Without(init, id);
      }
    }
  }

  /** The sort key: a.time.localeCompare(b.time). */
  function TimeOf(m: Meal): string {
    m.time
  }

  /** The render-time sort: ascending by time, stable, a permutation of the
      list, so every total is unchanged. */
  lemma SortedByTime(meals: seq<Meal>, n: Nutrient)
    ensures Sorting.Sorted(Sorting.SortBy(meals, TimeOf, false), TimeOf, false)
    ensures multiset(Sorting.SortBy(meals, TimeOf, false)) == multiset(meals)
    ensures Total(Sorting.SortBy(meals, TimeOf, false), n) == Total(meals, n)
  {
    TotalPermutation(Sorting.SortBy(meals, TimeOf, false), meals, n);
  }

  /** Math.min(100, (totalCalories / dailyGoal) * 100). */
  function CalorieBar(meals: seq<Meal>): (p: real)
    ensures p <= 100.0
    ensures p == 100.0 <==> Total(meals, Calories) >= DailyGoal
    ensures Total(meals, Calories) >= 0 ==> p >= 0.0
  {
    Gauge.Percent(Total(meals, Calories) as real, DailyGoal as real)
  }

  datatype FormField = TypeField | NameField | TimeField | CaloriesField | CarbsField | ProteinField | FatField

  /** setNewMeal({...newMeal, [field]: value}). */
  function SetField(f: MealForm, field: FormField, value: string): (r: MealForm)
    ensures field == CaloriesField ==> r.calories == value
    ensures field != CaloriesField ==> r.calories == f.calories
    ensures field == NameField ==> r.name == value
    ensures field != NameField ==> r.name == f.name
    ensures field == TimeField ==> r.time == value
    ensures field != TimeField ==> r.time == f.time
    ensures field == TypeField ==> r.mealType == value
    ensures field != TypeField ==> r.mealType == f.mealType
    ensures field == CarbsField ==> r.carbs == value
    ensures field != CarbsField ==> r.carbs == f.carbs
    ensures field == ProteinField ==> r.protein == value
    ensures field != ProteinField ==> r.protein == f.protein
    ensures field == FatField ==> r.fat == value
    ensures field != FatField ==> r.fat == f.fat
  {
    match field
    case TypeField => f.(mealType := value)
    case NameField => f.(name := value)
    case TimeField => f.(time := value)
    case CaloriesField => f.(calories := value)
    case CarbsField => f.(carbs := value)
    case ProteinField => f.(protein := value)
    case FatField => f.(fat := value)
  }
  /** Typing into a field again replaces what was typed before, and edits of
      two different fields do not interfere. */
  lemma SetFieldLastWins(f: MealForm, a: FormField, b: FormField, v: string, w: string)
    ensures SetField(SetField(f, a, v), a, w) == SetField(f, a, w)
    ensures a != b ==> SetField(SetField(f, a, v), b, w) == SetField(SetField(f, b, w), a, v)
  {
  }


  class MealTracker {
    /** The state array; handlers replace it, the render sorts it in place. */
    var meals: array<Meal>
    var newMeal: MealForm
    var isAdding: bool

    function Meals(): seq<Meal>
      reads this, meals
    {
      meals[..]
    }

    constructor ()
      ensures Meals() == InitialMeals && newMeal == EmptyForm && !isAdding
    {
      meals := new Meal[2](i requires 0 <= i < 2 => InitialMeals[i]);
      newMeal := EmptyForm;
      isAdding := false;
      new;
      assert meals[..] == InitialMeals;
    }

    /** The state array replaced by a new one holding s. */
    method Replace(s: seq<Meal>)
      modifies this
      ensures Meals() == s && fresh(meals)
      ensures newMeal == old(newMeal) && isAdding == old(isAdding)
    {
      meals := new Meal[|s|](i requires 0 <= i < |s| => s[i]);
      assert meals[..] == s;
    }

    /** handleAddMeal: an incomplete form changes nothing; a complete one
        appends its meal (numbers parsed, id from the clock), resets the
        form and closes it. */
    method HandleAddMeal(now: int)
      modifies this
      ensures Complete(old(newMeal)) ==>
        && Meals() == old(Meals()) + [FromForm(old(newMeal), now)]
        && newMeal == EmptyForm && !isAdding
      ensures !Complete(old(newMeal)) ==>
        meals == old(meals) && Meals() == old(Meals()) && newMeal == old(newMeal) && isAdding == old(isAdding)
    {
      if Complete(newMeal) {
        Replace(meals[..] + [FromForm(newMeal, now)]);
        newMeal := EmptyForm;
        isAdding := false;
      }
    }

    /** handleDeleteMeal. */
    method HandleDeleteMeal(id: int)
      modifies this
      ensures Meals() == Without(old(Meals()), id)
      ensures newMeal == old(newMeal) && isAdding == old(isAdding)
    {
      Replace(Without(meals[..], id));
    }

    /** The "Add Meal" button. */
    method OpenForm()
      modifies this`isAdding
      ensures isAdding
    {
      isAdding := true;
    }

    /** The form's Cancel button: closes the form and keeps its contents. */
    method CancelForm()
      modifies this`isAdding
      ensures !isAdding
    {
      isAdding := false;
    }

    /** One of the form's onChange handlers. */
    method EditForm(field: FormField, value: string)
      modifies this`newMeal
      ensures newMeal == SetField(old(newMeal), field, value)
    {
      newMeal := SetField(newMeal, field, value);
    }

    /** meals.sort((a, b) => a.time.localeCompare(b.time)) during render. */
    method SortForDisplay()
      modifies meals
      ensures Meals() == Sorting.SortBy(old(Meals()), TimeOf, false)
    {
      Sorting.SortInPlace(meals, TimeOf, false);
    }
  }
}
