/**
 * What separates the two deployments of the webhook: the persona prompt, the
 * sentence returned when the completion call fails, and whether the code
 * guards against a missing AI key or database URL.
 */
module Deployments {

  datatype Deployment = Deployment(persona: string, fallback: string, guarded: bool)

  /** The nutrition-coach system prompt (app.py). */
  const NutritionPrompt: string :=
    "\nYou are a strict and precise Nutritionist AI specialized in Hypertrophy.\n"
    + "The user is Male, 1.78m, 83.7kg.\n\n"
    + "YOUR DAILY TARGETS FOR THE USER:\n"
    + "- Calories: 2900 kcal\n- Protein: 180g\n- Carbs: 350g\n- Fats: 80g\n\n"
    + "INSTRUCTIONS:\n"
    + "1. When the user tells you what they ate, estimate the macros (Calories, Protein, Carbs, Fat).\n"
    + "2. Subtract these values from the Daily Targets.\n"
    + "3. Tell the user EXACTLY what represents in percentage of their day (e.g., \"This meal was 20% of your daily protein\").\n"
    + "4. Tell them how much is left for the day.\n"
    + "5. Keep answers short and direct.\n"
    + "6. Speak in Portuguese (Brazil).\n"
    + "7. If the food is \"dirty\" (junk food), scold the user slightly.\n"

  /** The English-tutor system prompt (projeton8n/app.py). */
  const TutorPrompt: string :=
    "\nYou are an English teacher. \n"
    + "1. Keep your answers SHORT (max 2 sentences).\n"
    + "2. Correct the student's grammar if necessary.\n"
    + "3. Always speak in English.\n"
    + "4. Remember the context of the conversation.\n"

  /** app.py: degrades to a memoryless or AI-less mode when configuration is missing. */
  const NutritionCoach := Deployment(NutritionPrompt, "I'm having trouble thinking right now.", true)

  /** projeton8n/app.py: builds its AI client at start-up; later failures arrive as exceptions. */
  const EnglishTutor := Deployment(TutorPrompt, "Error calling AI.", false)

  /** Reply of the guarded deployment when no AI client exists. */
  const MissingKeyReply := "System Error: AI Key missing."

  /** Whether an AI client exists. The guarded deployment creates one only when
      the key is set; the unguarded one always constructs it at start-up (the
      process does not come up otherwise). */
  function ClientReady(d: Deployment, aiKey: bool): (ready: bool)
    ensures d.guarded ==> (ready <==> aiKey)
    ensures !d.guarded ==> ready
  {
    !d.guarded || aiKey
  }

  /** `get_db_connection` succeeds. The guarded deployment returns no connection
      when no database URL is configured; the unguarded one hands the (possibly
      missing) URL to the driver, which then decides on its own defaults. */
  function ConnectionAvailable(d: Deployment, urlConfigured: bool, driverConnects: bool): (ok: bool)
    ensures ok ==> driverConnects
    ensures d.guarded && !urlConfigured ==> !ok
    ensures !d.guarded ==> ok == driverConnects
    ensures d.guarded && urlConfigured ==> ok == driverConnects
  {
    if d.guarded && !urlConfigured then false else driverConnects
  }
}
